# Locker API model

This project models the locker part of the v1sports swing API in Dafny: the
`LockerAPIController` of the Laravel application. A *swing* is a student's
uploaded golf-swing video, stored as a record with an owner account, an optional
instructor, a status (0 new, 1 assigned, 2 rejected, 3 analyzed, 4 browsable),
a video path, a deleted flag and upload and acceptance times. The controller
offers these operations:

- `index` lists a locker;
- `swingAnalysis` shows the analysis of one swing;
- `videoLessonIndex` reports an instructor's recent lessons;
- `assignSwings` assigns swings to an instructor;
- `store` creates a new, empty locker item;
- `upload` validates a video upload and derives its storage key;
- `swingRecordTranslate` turns a record into the shape the API returns,
  with absolute video and thumbnail URLs.

The model is split into these modules:

- `Wrappers`: `Option` and `Result`.
- `Strings`: the PHP string functions the controller relies on, with their laws:
  - `str_replace` with a list of needles, as a sequential replace-all;
  - `explode` and `implode` on `,`;
  - zero-padded decimal fields of `date()`.
- `Swings`: the swing record, the actor (the authenticated user) and the error outcomes. It also holds the search criteria the controller hands to the swing repository's `all`, modelled as a filter with a membership law, plus the store invariant (ids issued from 1, unique and below the next id; a new record has no instructor). The separate predicate `NoVideoWhileNew` (a new record has no video yet) is kept by every locker operation wherever it holds. It is not part of the invariant, because a status-0 record may carry a video: the disabled line 595 would write one without changing the status, and older clients wrote relative paths (lines 442-443).
- `Translate`: `swingRecordTranslate`, the URL prefixing and the thumbnail rewrite.
- `Listing`: the criteria and results of `index`, `swingAnalysis` and `videoLessonIndex`, as pure functions.
- `Upload`: the checks `upload` makes, its key derivation, and the byte-counting loop of `copyInputStreamToS3`.
- `Locker`: the class `SwingStore`. Its methods `Store`, `AssignSwings` and `Upload` change the swing table and the thumbnail job queue in place. They are proved against the functions `NewLockerItem`, `AssignAll` and `CheckUpload`.

Collaborators the controller calls are passed in as parameters:

- the instructor–student relation of `InstructorRepository::students`;
- the connections of `hasInstructorConnection`;
- the set of existing instructors behind `Instructor::find`;
- the clock;
- the application environment.

Times are plain integers, in seconds.

Where the code and its documentation differ, the model follows the code:

- The `upload` endpoint is documented as storing the video and recording its path. The copy and the path update are commented out (lines 589-597), so that endpoint only validates the request and dispatches the thumbnail job. The guard against a second upload (lines 565-569) is commented out too and is not modelled.
- The Content-Length check rejects only a value of 0 (line 553). A negative or too-small value passes.
- `copyInputStreamToS3` compares the copied count with the limit but does nothing when it is exceeded (lines 626-628). So `CopyInputStream` copies the whole input.
- `assignSwings` changes every named, non-deleted swing whatever its status. The model does the same.
- `str_replace` replaces each extension everywhere in the path, not only at its end. The model keeps that. `ThumbRemovesExtensions` says no occurrence of any of the four extensions is left in the thumbnail path. `ThumbUnchangedIff` says the path is rewritten exactly when it contains one of them anywhere.
- `assignSwings` never checks who owns the named swings (the TODO at lines 366-368). Lines 353-357 only relate the actor to the instructor, and an instructor may assign to themself. So any instructor can claim any account's non-deleted swing, an analyzed one included, which goes back to status 1. `AssignAllEffect` states exactly this.

## Model

| member | source | states |
|---|---|---|
| Translate.AbsoluteUrl | app/Http/Controllers/API/LockerAPIController.php:441-444 | a path is returned unchanged exactly when it is empty or starts with "http"; otherwise the SwingStore origin is put in front; any non-empty result starts with "http" |
| Translate.AbsoluteUrlIdempotent | app/Http/Controllers/API/LockerAPIController.php:441-444 | applying the prefix rule to a URL it produced leaves that URL unchanged, so a URL is never prefixed twice |
| Translate.ThumbRemovesExtensions | app/Http/Controllers/API/LockerAPIController.php:445 | the thumbnail path contains none of ".mp4", ".webm", ".bin", ".mov": every occurrence of each, not only the first, is replaced by ".jpg" |
| Translate.ThumbUnchangedIff | app/Http/Controllers/API/LockerAPIController.php:445 | the thumbnail rewrite leaves a path unchanged if and only if the path contains none of ".mp4", ".webm", ".bin", ".mov" |
| Translate.ThumbOfExtension | app/Http/Controllers/API/LockerAPIController.php:445 | a stem containing none of the four video extensions, followed by one of them, becomes that stem followed by ".jpg" |
| Translate.ThumbKeepsShape | app/Http/Controllers/API/LockerAPIController.php:445-448 | the rewrite keeps a path non-empty, and an absolute ("http") path stays absolute |
| Translate.SwingRecordTranslate | app/Http/Controllers/API/LockerAPIController.php:440-467 | the API view carries the record's id, account, description, Vimeo id, status and upload date, has type "video", and its URLs are the prefixed video path and the prefixed thumbnail path |
| Translate.TranslateUrlsAbsolute | app/Http/Controllers/API/LockerAPIController.php:441-448 | every non-empty video or thumbnail URL of a view starts with "http" |
| Translate.TranslateThumbWithoutExtension | app/Http/Controllers/API/LockerAPIController.php:441-448 | a record whose path has no video extension gets the video URL as its thumbnail URL |
| Translate.TranslateRelativeVideo | app/Http/Controllers/API/LockerAPIController.php:441-448 | a relative path stem plus extension gets the origin-prefixed path as video URL and the origin-prefixed stem plus ".jpg" as thumbnail URL |
| Strings.ReplaceAbsent | app/Http/Controllers/API/LockerAPIController.php:445 | replacing a needle that does not occur changes nothing |
| Strings.ReplaceCount | app/Http/Controllers/API/LockerAPIController.php:445 | a replacement that brings in a character the needle lacks never lowers that character's count, and raises it when the needle occurs; so a changed path is really different |
| Strings.ReplaceRemoves | app/Http/Controllers/API/LockerAPIController.php:445 | replacing a dot-led needle by a dot-led replacement leaves no occurrence of the needle, and creates no occurrence of another dot-led string that the input lacked and the replacement does not start |
| Strings.ReplaceAppended | app/Http/Controllers/API/LockerAPIController.php:445 | replacing a dot-led needle at the end of a string that does not contain it swaps only that ending |
| Strings.JoinSplit | app/Http/Controllers/API/LockerAPIController.php:139-140 | joining the pieces of `explode(',')` with commas gives back the original string |
| Strings.SplitPiecesHaveNoComma | app/Http/Controllers/API/LockerAPIController.php:139-140 | no piece that `explode(',')` produces contains a comma |
| Strings.SplitJoin | app/Http/Controllers/API/LockerAPIController.php:139-140 | splitting a comma-join of comma-free pieces gives back those pieces |
| Strings.ParseDigitsOfDigits | app/Http/Controllers/API/LockerAPIController.php:570 | a zero-padded date field of width w reads back as the number it renders, when the number has at most w digits |
| Strings.DigitsInjective | app/Http/Controllers/API/LockerAPIController.php:570 | two numbers that fit in w digits are rendered the same only when they are equal |
| Swings.SearchMembers | app/Http/Controllers/API/LockerAPIController.php:145-149 | a record is in a repository search result exactly when it is in the table and meets every criterion given |
| Swings.Find | app/Http/Controllers/API/LockerAPIController.php:561 | finding by id returns a record of the table with that id, or nothing exactly when no record has it |
| Listing.LockerAccount | app/Http/Controllers/API/LockerAPIController.php:125-133 | a non-instructor always gets their own account; an instructor gets the requested account, and not-found exactly when none was given or it is not one of their students |
| Listing.LockerIndexNotFound | app/Http/Controllers/API/LockerAPIController.php:125-130 | `index` fails, with not-found, exactly for an instructor who is not related to the requested account |
| Listing.LockerIndexContents | app/Http/Controllers/API/LockerAPIController.php:136-149 | `index` returns exactly the non-deleted records of the effective account, filtered by the requested ids when `ids` is truthy and by status 0 or 4 otherwise |
| Listing.LockerIndexIgnoresAccountParam | app/Http/Controllers/API/LockerAPIController.php:131-133 | for a non-instructor the account in the path has no effect on the listing |
| Listing.RequestedIdsOfJoin | app/Http/Controllers/API/LockerAPIController.php:139-140 | the ids read from a comma-joined list of numerals are exactly the numbers those numerals denote |
| Listing.SwingAnalysisContents | app/Http/Controllers/API/LockerAPIController.php:196-209 | `swingAnalysis` returns exactly the non-deleted, analyzed records with that id, matched on the instructor for instructors and on the owner for anyone else |
| Listing.LessonDays | app/Http/Controllers/API/LockerAPIController.php:260-263 | the report window is 365 days when `daysAgo` is zero or absent and `daysAgo` otherwise, so never zero |
| Listing.LessonInstructor | app/Http/Controllers/API/LockerAPIController.php:269-274 | the report is about the instructor an API agent names in `instructor_id`; for anyone else, and for an agent naming none, it is about the actor's own account |
| Listing.VideoLessonIndexUnauthorized | app/Http/Controllers/API/LockerAPIController.php:266-268 | the report is refused as unauthorized exactly when there is no user, or the user is neither an instructor nor an agent |
| Listing.VideoLessonIndexContents | app/Http/Controllers/API/LockerAPIController.php:264-287 | the report holds exactly the chosen instructor's non-deleted status-2 or status-3 swings uploaded within the window before now |
| Listing.VideoLessonIndexDefaultWindow | app/Http/Controllers/API/LockerAPIController.php:260-264 | a zero `daysAgo` gives the same report as 365 |
| Listing.VideoLessonIndexOverrideOnlyAgent | app/Http/Controllers/API/LockerAPIController.php:269-274 | for anyone but an agent, the `instructor_id` parameter has no effect |
| Listing.ListingsExcludeDeleted | app/Http/Controllers/API/LockerAPIController.php:136-280 | no listing of `index`, `swingAnalysis` or `videoLessonIndex` contains a deleted record |
| Upload.ExtensionFor | app/Http/Controllers/API/LockerAPIController.php:574-587 | each content type maps to its video extension: mp4 to ".mp4", webm to ".webm", quicktime to ".mov", anything else to ".bin" |
| Upload.TwelveHourKeysCollide | app/Http/Controllers/API/LockerAPIController.php:570 | with the 12-hour `h` of the source, uploads at 01:00:00 and 13:00:00 on the same day get the same key |
| Upload.DestinationKeyInjective | app/Http/Controllers/API/LockerAPIController.php:570 | with a 24-hour hour field, two valid clock readings give the same key only when they are equal |
| Upload.KeyAsWrittenIsTwelveHourReading | app/Http/Controllers/API/LockerAPIController.php:570 | the key as written is the corrected key of the same clock read on a 12-hour dial, which is again a valid clock |
| Upload.DestinationKeyPrefix | app/Http/Controllers/API/LockerAPIController.php:570-573 | for any hour field, the source's 12-hour one included, the key starts with "test/swings/" in the testing and local environments and with "swings/" elsewhere; it starts with "test/" exactly in those two |
| Upload.KeyStemHasNoDot | app/Http/Controllers/API/LockerAPIController.php:570-573 | for any all-digit hour field the key before its extension contains no dot, is non-empty, is relative and starts with "t" under "test/" and with "s" otherwise |
| Upload.TranslateUploadedKey | app/Http/Controllers/API/LockerAPIController.php:570-597 | a record stored under the media origin of line 595 plus an upload key is shown with that URL unchanged as video URL and with the same URL, ".jpg" in place of the extension, as thumbnail URL |
| Upload.CheckUploadOutcomes | app/Http/Controllers/API/LockerAPIController.php:547-573 | an upload is rejected, in this order, for a missing id, a zero Content-Length, a type outside the allowed list (each with the source's message), with not-found when no record has the id, and as unauthorized when the record found belongs to another account; otherwise it is accepted with the owned record and the key line 570 builds, 12-hour hour included |
| Upload.CopyInputStream | app/Http/Controllers/API/LockerAPIController.php:605-633 | the chunked copy writes out exactly the input and returns its length, whatever the declared limit |
| Locker.NewLockerItem | app/Http/Controllers/API/LockerAPIController.php:503-510 | a new item belongs to the actor, keeps the description, has status 0, empty video path and Vimeo id and the current upload time, as lines 503-510 set them; no instructor, not deleted and no acceptance time, the defaults of the columns the source leaves unset |
| Locker.StoredItemUploadAccepted | app/Http/Controllers/API/LockerAPIController.php:503-564 | the id `store` returns (the `Location` header at line 514) reaches the new record: the owner's upload to it, with a non-zero length and an allowed type, is accepted and acts on that record |
| Locker.NewItemPreservesWellFormed | app/Http/Controllers/API/LockerAPIController.php:503-510 | adding the new item under the next free id keeps the store invariant |
| Locker.AssignAllEffect | app/Http/Controllers/API/LockerAPIController.php:375-384 | every non-deleted named swing gets status 1, the instructor and the acceptance time and keeps its other fields; every other record is untouched |
| Locker.AssignAllLastWriteWins | app/Http/Controllers/API/LockerAPIController.php:375-384 | assigning the same swings again overrides the earlier instructor and time |
| Locker.AssignAllIdempotent | app/Http/Controllers/API/LockerAPIController.php:375-384 | repeating an assignment with the same instructor and time changes nothing |
| Locker.AssignPreservesNoVideoWhileNew | app/Http/Controllers/API/LockerAPIController.php:375-384 | assignment leaves every record that stays in status 0 as it was, so a table whose new records have no video keeps that property |
| Locker.AssignPreservesWellFormed | app/Http/Controllers/API/LockerAPIController.php:375-384 | assignment keeps the store invariant |
| Locker.AssignedListIsClaimed | app/Http/Controllers/API/LockerAPIController.php:370-386 | every record `assignSwings` returns is a named, non-deleted swing with status 1, that instructor and that time |
| Locker.SwingStore.Store | app/Http/Controllers/API/LockerAPIController.php:497-510 | `store` appends the new item under the next free id, which is non-zero and finds exactly that item, keeps the invariant and `NoVideoWhileNew` where it held, and leaves the job queue alone |
| Locker.SwingStore.AssignSwings | app/Http/Controllers/API/LockerAPIController.php:341-387 | an unknown instructor gives not-found and an unauthorized actor gives unauthorized, with nothing changed; otherwise the table becomes its assignment and the result lists the fetched records after the change, in table order; the invariant and `NoVideoWhileNew` where it held are kept |
| Locker.SwingStore.Upload | app/Http/Controllers/API/LockerAPIController.php:544-603 | the outcome is the checks' outcome; a thumbnail job for the id is queued exactly when the upload is accepted, the swing table is unchanged and the store invariant and `NoVideoWhileNew` are kept |

## Findings

| source | as written | input that shows it | evidently intended | confidence | as-written member | corrected member |
|---|---|---|---|---|---|---|
| app/Http/Controllers/API/LockerAPIController.php:570 | the key's time stamp is `date('Ymdhis')`, whose `h` is the 12-hour hour | uploads of the same content type at 2024-05-01 01:00:00 and 2024-05-01 13:00:00 get the same key "swings/2024/20240501010000.mp4", so once the copy commented out at lines 589-597 is re-enabled the second upload would overwrite the first | a 24-hour `H`, so that distinct seconds give distinct keys | likely; not executed | Upload.TwelveHourKeysCollide | Upload.DestinationKeyInjective |

The upload checks (`Upload.CheckUpload`, and through them `Locker.SwingStore.Upload`) build the key as line 570 writes it, `Upload.DestinationKeyAsWritten`.
`Upload.DestinationKey` is the corrected 24-hour form, and `Upload.KeyAsWrittenIsTwelveHourReading` relates the two.
The key lemmas `Upload.DestinationKeyPrefix`, `Upload.KeyStemHasNoDot` and `Upload.TranslateUploadedKey` hold for both.

## Left out

- Swings.WellFormed: takes the table to issue ids from 1 on, as an identity column does. The controller never sees the id counter; `store` only reads the id the `create` call returns.
- Pagination: the `skip` and `limit` parameters and the default limits of 100 and 20 are not modelled. Listings return every match, in table order.
- JSON:API serialisation through Fractal, the `SwingAnalysisTransformer`, and the `Location` header of `store` are output formatting, so they are left out.
- Time zones are left out. The New York time zone of `store` and the re-parsing of `date_uploaded` both become plain integer timestamps.
- The streams of `copyInputStreamToS3` are modelled as a byte sequence in and one out. This leaves out the `php://input` and `s3://` wrappers, the ACL and the closing of the streams.
- Upload.CopyInputStream: returns the byte count as if the streams closed cleanly. Line 630 closes `$oputput`, a misspelling of `$output`, so the output stream is never closed there. By a reading of PHP 8 semantics (not executed), passing that undefined variable, that is null, to `fclose` raises a TypeError that `@` does not silence, before `return $bytes` is reached. The only call, at line 590, is commented out.
- The body of the `ThumbnailVideo` job is not part of this model. Only its dispatch, as an id added to a queue, is modelled.
- `InstructorRepository::students`, `User::hasInstructorConnection` and `Instructor::find` are parameters: a relation, a relation and a set of ids.
- `searchBrokenVideos` is not part of this model. The lesson report models its date bound as "uploaded at or after the window start".
- The `ids` parameter: only pieces that are decimal numerals name swings. How the database compares pieces with spaces, signs or other text to the id column is left out.
- Locker.SwingStore.AssignSwings: reads the clock once for the whole batch, whereas the source calls `Carbon::now()` for each record. Records may therefore differ by the seconds elapsed during the loop.
- Upload.KeyWith: the model renders the year on four digits (`Digits(t.year, 4)` keeps the last four), which is what `date('Y')` prints for years up to 9999. For a later year `date('Y')` prints every digit, and the model's key differs from the source's.
- Upload.DestinationKeyInjective: holds for clock readings with a year of at most four digits, the range where the model's year field matches `date('Y')`.
- Requests without an authenticated user are assumed not to reach `index`, `swingAnalysis`, `assignSwings`, `store` or `upload`. routes/api.php:29 puts only the controller's resource routes (`index`, `store` and the other resource actions) in the `auth:api` group. The routes of `swingAnalysis`, `assignSwings`, `upload` and `videoLessonIndex` are not part of this model, so for the first three this is an assumption. `videoLessonIndex` checks for a missing user itself (line 266), and the model keeps that check.
- Upload.CheckUploadOutcomes: reports a missing record as `NotFound`. The source reads `->AccountID` of the null that `find` returns (line 562); PHP warns about reading a property of null there, and Laravel turns that warning into an exception answered with a server error, not a not-found response.
- Listing.LockerAccount: an instructor who names no account gets not-found without consulting the student relation. The source then calls `students($user->AccountID, false, [false])` (line 127); that repository method is not part of this model, and the model takes it to return no student.
- The other controllers, the models, routes, migrations and seeders of the application are not part of this model.
