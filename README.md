# Ocean construction site: a Dafny model of its server routes and client components

The site is a construction company's public website with an admin area. An
Express server answers:

- a login that issues signed bearer tokens, and a gate in front of the project routes;
- a credentials provider for session sign-in;
- user administration;
- a gallery capped at ten images, whose uploads are filtered, renamed and re-encoded as JPEG renditions;
- a per-user chatbot configuration with a public context lookup keyed by a token.

The React client shows project cards and a detail modal, each with an image carousel. It also has an admin
project preview, a drag-and-drop gallery page, a toast notification provider and a floating chatbot.

This project models that behaviour in Dafny and proves properties of it.

- **Tables.** A table is a class whose `rows` field is a sequence. The class has one method per route; each method returns the route's answer, a `Result` carrying either the value or the HTTP status and message.
- **Validation chains.** These are ordered lists of checks; the answer is the first failing check.
- **Partial updates.** These are SET lists bound to consecutive `$k` parameters.
- **Disk.** The server's disk is a class holding a set of files and a set of directories.
- **Client state.** React state is a class field. Each handler is a method that reassigns it.

Collaborators whose code is not part of this model become parameters:

| Collaborator | Becomes |
|---|---|
| bcrypt | a `matches`/`compare` function |
| the JWT verifier | a `verify` function |
| the uuid generator and `Math.random` | fresh-identifier arguments |
| the image codec | a `codec` predicate |
| PostgreSQL's integer cast | a `castInteger` function |
| the clock | numeric arguments |
| the chatbot webhook's reply | a `Reply` value |

Modules:

| Module | Models |
|---|---|
| `Wrappers` | `Option`, `Result`, `HttpError` |
| `JsString` | the ECMAScript string operations the code calls |
| `NodePath` | POSIX `path.basename`/`extname`/`join` |
| `Sorting` | the stable `Array.prototype.sort` by numeric key |
| `Validation` | ordered check chains |
| `Rows` | lookup of a table row by its id |
| `SqlUpdate` | the partial-update statement builder |
| `Users` | `server/routes/users.js` |
| `Upload` | `server/middleware/upload.js` |
| `ImageProcessor` | `server/utils/imageProcessor.js` |
| `Gallery` | `server/routes/gallery.js` |
| `Bot` | `server/routes/bot.js` |
| `Server` | `server/index.js` |
| `AuthConfig` | `server/auth.config.js` |
| `ProjectsSection` | `src/components/ProjectsSection.tsx` |
| `ProjectDetailModal` | `src/components/ProjectDetailModal.tsx` |
| `ProjectPreview` | `src/components/admin/ProjectPreview.tsx` |
| `GalleryAdmin` | `src/pages/admin/Gallery.tsx` |
| `Toasts` | `src/components/ui/ToastContext.tsx` |
| `Chatbot` | `src/components/FloatingChatbot.tsx` |

`processImage` writes the full-size JPEG to `/upload/<stem>.jpg` (server/utils/imageProcessor.js:20-32).
For a lower-case `.jpg` upload that target is the input path itself, and the original is not
unlinked; `ImageProcessor.JpgProcessedInPlace` states both. Whether the image library can write
over its own input is left to the `codec` parameter. sharp refuses an output path equal to its input;
a `codec` that fails for such an input models that refusal. `processImage` then throws "Failed to
process image", which the gallery routes answer with 500.

## Model

| member | source | states |
|---|---|---|
| JsString.ToLower | server/middleware/upload.js:27 | the lower-cased text has the same length and maps each character by the ASCII case mapping |
| JsString.ToUpper | src/components/ProjectsSection.tsx:39 | the upper-cased text has the same length and maps each character by the ASCII case mapping only (see Left out) |
| JsString.IncludesIff | src/components/ProjectsSection.tsx:33-36 | `includes` is true exactly when the substring occurs at some position |
| JsString.Includes | src/components/ProjectsSection.tsx:33-36 | `includes` as a left-to-right scan; its meaning is stated by `JsString.IncludesIff` |
| JsString.IncludesAppend | src/components/ProjectsSection.tsx:33 | a text that includes a substring still includes it after more text is appended |
| JsString.MissingCharNotIncluded | src/components/ProjectsSection.tsx:33 | a text lacking one character of the substring does not include it |
| JsString.ToLowerAppend | server/middleware/upload.js:27 | lower-casing distributes over concatenation |
| JsString.Utf16Length | server/routes/users.js:58 | `length` counts UTF-16 code units: at least one and at most two per character |
| JsString.Utf16LengthAppend | server/routes/users.js:58 | the length of a concatenation is the sum of the lengths |
| JsString.Utf16LengthBmp | server/routes/users.js:58 | text inside the Basic Multilingual Plane has one code unit per character |
| JsString.Utf16LengthAstral | server/routes/users.js:167 | text outside the Basic Multilingual Plane has two code units per character |
| JsString.IndexOf | server/auth.config.js:32 | None exactly when the character is absent; otherwise it is the first position holding it |
| JsString.Split | server/index.js:66 | splitting yields at least one part and no part contains the separator |
| JsString.JoinSplit | server/index.js:66 | joining the parts of a split with the separator gives back the original text |
| JsString.SplitFront | server/auth.config.js:32 | a separator-free prefix before the first separator is exactly the first part |
| JsString.TrimStart | src/components/FloatingChatbot.tsx:42 | the result is a suffix of the input, starts with no white space, and only white space was removed |
| JsString.TrimEnd | src/components/FloatingChatbot.tsx:42 | the result is a prefix of the input, ends with no white space, and only white space was removed |
| JsString.TrimParts | src/components/FloatingChatbot.tsx:42-47 | the input is a white-space run, the trimmed text, and a white-space run |
| JsString.TrimEmptyIff | src/components/FloatingChatbot.tsx:42 | the trimmed text is empty exactly when the input is all white space; otherwise it starts and ends with non-space |
| JsString.Trim | src/components/FloatingChatbot.tsx:42 | `trim` removes leading then trailing white space; stated by `JsString.TrimParts` and `JsString.TrimEmptyIff` |
| JsString.DigitRun | server/routes/gallery.js:108 | the leading run of digits in the radix has maximal length |
| JsString.Decimal | src/pages/admin/Gallery.tsx:44 | `toString` of a non-negative integer is a non-empty run of decimal digits |
| JsString.DecimalValue | src/pages/admin/Gallery.tsx:44 | the digits of `Decimal(n)` denote `n` |
| JsString.ParseIntDecimal | server/routes/gallery.js:108 | `parseInt` reads back the decimal text of any non-negative integer, whatever non-digit text follows |
| JsString.ParseIntNaN | server/routes/gallery.js:108 | blank text, or text whose first non-blank character is neither a digit nor a sign, parses to NaN |
| JsString.ParseInt | server/routes/gallery.js:108 | `parseInt`: white space, one sign, then the leading digits; what it reads is stated by `JsString.ParseIntDecimal` and `JsString.ParseIntNaN` |
| NodePath.StripTrailingSlashes | server/utils/imageProcessor.js:66 | the result is a prefix of the path that does not end in '/' |
| NodePath.LastIndexOf | server/utils/imageProcessor.js:66 | None exactly when the character is absent; otherwise it is its last position |
| NodePath.Basename | server/utils/imageProcessor.js:66 | the basename contains no '/' |
| NodePath.ExtNameShape | server/middleware/upload.js:18 | an extension is empty or a '.' followed by no further '.' and no '/' |
| NodePath.ExtName | server/middleware/upload.js:18 | `path.extname`: the extension of the basename; its shape is stated by `NodePath.ExtNameShape` and `NodePath.StemSplit` |
| NodePath.StemSplit | server/utils/imageProcessor.js:20 | the basename is the stem followed by the extension |
| NodePath.Stem | server/utils/imageProcessor.js:20 | `path.basename(p, path.extname(p))`; stated by `NodePath.StemSplit` and `NodePath.StemNoSlash` |
| NodePath.JoinSegment | server/utils/imageProcessor.js:22-23 | joining a directory and a plain segment appends "/segment" |
| NodePath.ExtNameOfName | server/middleware/upload.js:18 | a dot-free stem plus an extension-shaped suffix has that suffix as its extension and is its own basename |
| NodePath.BasenameOfChild | server/utils/imageProcessor.js:66 | the basename of dir + "/" + name is the name |
| NodePath.ExtNameAfterStem | server/utils/imageProcessor.js:44 | any slash-free stem followed by a proper extension has that extension |
| NodePath.StemNoSlash | server/utils/imageProcessor.js:20 | a stem contains no '/' |
| NodePath.BasenameOfName | server/utils/imageProcessor.js:66 | a plain slash-free name is its own basename |
| NodePath.ExtNameOfChild | server/middleware/upload.js:18 | a child of a directory has the extension of its own name |
| Sorting.Insert | src/components/ProjectsSection.tsx:12 | inserting grows the sequence by one |
| Sorting.InsertPermutes | src/components/ProjectsSection.tsx:12 | inserting adds exactly the inserted element to the multiset |
| Sorting.SortBy | src/components/ProjectsSection.tsx:12 | sorting keeps the length |
| Sorting.SortBySorted | src/components/ProjectsSection.tsx:12 | the sorted sequence is ordered by key and is a permutation of the input |
| Sorting.SortByStable | src/components/ProjectsSection.tsx:12 | elements with equal keys keep their relative order |
| Sorting.SortBySortedIdentity | src/components/ProjectsSection.tsx:12 | an already ordered sequence is left unchanged |
| Validation.FirstFailure | server/routes/users.js:47-71 | None exactly when no check fails |
| Validation.FirstFailureAt | server/routes/users.js:47-71 | when check k fails and none before it does, the answer is check k's error |
| Validation.FirstFailureAppend | server/routes/users.js:100-137 | a chain run in two parts consults the second part only when the first passes |
| Rows.Find | server/routes/users.js:27 | None exactly when no row has the key; otherwise the row at that index has it (`WHERE id = $1`, shared by the users and gallery tables) |
| SqlUpdate.Numbered | server/routes/users.js:113-131 | the supplied columns are bound to consecutive parameters from `$start`, in push order |
| SqlUpdate.Values | server/routes/users.js:113-131 | the bound values are the supplied values in push order |
| SqlUpdate.StatementWellNumbered | server/routes/users.js:142 | every statement binds `$1..$n` without gaps, adds `updated_at`, and binds the id as the last parameter of the WHERE clause |
| SqlUpdate.StatementWrites | server/routes/gallery.js:96-122 | the statement writes into each column exactly the value first supplied for it, and nothing into unsupplied columns |
| SqlUpdate.Statement | server/routes/users.js:135-142 | the SET list and values of the supplied fields, then `updated_at`, with the id bound last; stated by `SqlUpdate.StatementWellNumbered` and `SqlUpdate.StatementWrites` |
| SqlUpdate.SuppliedValue | server/routes/users.js:112-114 | a supplied field binds its own column and no other |
| SqlUpdate.PushSupplied | server/routes/users.js:116-119 | one guarded push extends the SET list, the values and the counter exactly by the supplied field |
| Users.EmailAccepted | server/routes/users.js:52-53 | every text of the form local@host.tld with non-empty `[^\s@]` parts is accepted |
| Users.EmailParts | server/routes/users.js:52-53 | every accepted text has the form local@host.tld with non-empty `[^\s@]` parts |
| Users.IsEmail | server/routes/users.js:52-55 | the email regular expression, decided at the first '@'; both directions are `Users.EmailAccepted` and `Users.EmailParts` |
| Users.RoleOf | server/routes/users.js:44 | the role defaults to 'user' when omitted |
| Users.CreateChecks | server/routes/users.js:47-71 | the five creation checks in the handler's order; their outcome is stated by `Users.CreateAcceptedIff`, `Users.MissingFieldReportedFirst` and `Users.ConflictOnlyWhenValid` |
| Users.CreateAcceptedIff | server/routes/users.js:47-71 | creation is accepted exactly when the three fields are present, the email is well formed, the password is at least 8 UTF-16 code units long (`password.length`), the role (default 'user') is admin or user, and no row holds the email |
| Users.MissingFieldReportedFirst | server/routes/users.js:47-49 | a missing field is answered with 400 before any other check |
| Users.ConflictOnlyWhenValid | server/routes/users.js:68-71 | a 409 is answered only to an otherwise valid request (fields present, email well formed, password at least 8 UTF-16 code units, role valid) whose email is taken |
| Users.UpdateFields | server/routes/users.js:112-132 | the supplied fields in push order; stated by `Users.UpdateFieldValues` and `Users.UpdateStatementShape` |
| Users.UpdateChecks | server/routes/users.js:100-147 | the update checks followed by the 404 of an empty UPDATE result; stated by `Users.UpdateValidationCascade` and `Users.EmptyUpdateRejected` |
| Users.UpdateValidation | server/routes/users.js:100-137 | the update's checks before the query, in the handler's order; stated by `Users.UpdateValidationCascade` |
| Users.UpdateValidationCascade | server/routes/users.js:100-137 | the update answers the first failure among: email format, email used by another user, role, no fields |
| Users.UpdateFieldValue | server/routes/users.js:112-132 | the update binds each column to the value supplied for it, or not at all |
| Users.UpdateFieldValues | server/routes/users.js:112-132 | email, full name, role and active flag are bound exactly when supplied |
| Users.UpdateStatementShape | server/routes/users.js:135-142 | the SET list holds one entry per supplied field (at most four), is well numbered, and puts the id after them |
| Users.UpdateWritesSupplied | server/routes/users.js:142 | executing the update changes exactly the supplied columns and keeps id and password hash |
| Users.EmptyUpdateRejected | server/routes/users.js:135-137 | an update supplying no field answers 400 "No fields to update" |
| Users.OwnEmailNoConflict | server/routes/users.js:107-111 | resubmitting the user's own email is no conflict |
| Users.PasswordAcceptedIff | server/routes/users.js:160-182 | a password change succeeds exactly when the password is present, is at least 8 UTF-16 code units long (`password.length`), and the user exists |
| Users.PasswordChecks | server/routes/users.js:162-181 | the password-change checks in the handler's order; stated by `Users.PasswordAcceptedIff` |
| Users.AstralPasswordLongEnough | server/routes/users.js:58 | a password of four characters outside the Basic Multilingual Plane (four emoji) passes the length test of creation and of a password change, as `password.length` is 8 |
| Users.UserTable.constructor | server/routes/users.js:9 | the table starts empty and valid |
| Users.UserTable.Get | server/routes/users.js:22-39 | 404 "User not found" exactly when no row has the id; otherwise that row's profile, without the hash |
| Users.ProfileOf | server/routes/users.js:26 | the columns the routes answer with, without the password hash; stated by `Users.UserTable.Get` |
| Users.UserTable.Create | server/routes/users.js:42-87 | fails exactly with the first failing creation check; otherwise appends one row with the next id, the default role "user" and the given hash, keeping ids and emails unique |
| Users.UserTable.Execute | server/routes/users.js:142-147 | the row with the id is rewritten by the statement; no row is found exactly when the id is absent |
| Users.UserTable.Prepare | server/routes/users.js:96-142 | fails with the first failing validation; otherwise builds the statement of the supplied fields |
| Users.UserTable.Update | server/routes/users.js:90-154 | answers the first failing update check, with the table unchanged; on success, the statement sent is the supplied fields' statement and only that row changes |
| Users.UserTable.ChangePassword | server/routes/users.js:157-188 | fails exactly with the first failing password check (its length counted in UTF-16 code units), with the table unchanged; otherwise only the user's hash is replaced |
| Users.UserTable.Delete | server/routes/users.js:191-206 | 404 exactly when the id is absent; otherwise exactly that row is removed |
| Users.UpdateKeepsUnique | server/routes/users.js:107-111 | an update that passed the email check keeps ids and emails unique |
| Users.RemoveKeepsUnique | server/routes/users.js:195 | removing a row keeps ids and emails unique, and the removed id is gone |
| Upload.MatchesAnyIff | server/middleware/upload.js:26-28 | a regular-expression alternation test is true exactly when some alternative occurs in the text |
| Upload.MatchesAny | server/middleware/upload.js:26 | the alternation test; stated by `Upload.MatchesAnyIff` |
| Upload.MatchesImagePatterns | server/middleware/upload.js:26 | the image test is true exactly when the text contains jpeg, jpg, png or webp |
| Upload.MatchesVideoPatterns | server/middleware/upload.js:39 | the video test is true exactly when the text contains mp4 or webm |
| Upload.Patterns | server/middleware/upload.js:26-39 | the image alternatives jpeg, jpg, png, webp and the video alternatives mp4, webm; stated by `Upload.MatchesImagePatterns` and `Upload.MatchesVideoPatterns` |
| Upload.SizeLimit | server/middleware/upload.js:54-64 | 10·1024·1024 bytes for images and 100·1024·1024 for videos; stated by `Upload.Ingest` |
| Upload.ExtensionPasses | server/middleware/upload.js:27 | the extension test on the lower-cased extension; stated by `Upload.ExtensionCaseInsensitive` and `Upload.ExtensionTestUnanchored` |
| Upload.MimePasses | server/middleware/upload.js:28 | the MIME test on the type as given; stated by `Upload.UpperCaseMimeRejected` |
| Upload.FileFilter | server/middleware/upload.js:25-48 | a file is accepted exactly when both the extension test and the MIME test pass; a rejection carries the kind's message; what passing means in terms of the patterns is `Upload.FilterAcceptsIff` and `Upload.MatchesImagePatterns` |
| Upload.FilterAcceptsIff | server/middleware/upload.js:27-30 | acceptance means some alternative occurs in the lower-cased extension and some occurs in the MIME type |
| Upload.UpperCaseMimeRejected | server/middleware/upload.js:28 | a MIME type with no lower-case letter is always rejected, because it is not lower-cased before the test |
| Upload.ExtensionCaseInsensitive | server/middleware/upload.js:27 | upper-casing the extension does not change the extension test |
| Upload.ExtensionTestUnanchored | server/middleware/upload.js:27 | an extension that merely contains an alternative passes, whatever follows it |
| Upload.StoredNameKeepsExtension | server/middleware/upload.js:17-21 | the stored name starts with the identifier, keeps the original extension, and is a plain name |
| Upload.StoredName | server/middleware/upload.js:17-21 | the identifier followed by the original extension; stated by `Upload.StoredNameKeepsExtension` |
| Upload.Ingest | server/middleware/upload.js:13-64 | a file is stored exactly when the filter accepts it and it is within the kind's size limit; otherwise the type or size message; stored files go to /upload/uuid+ext; that both kinds land in one directory is `Upload.IngestSameDirectory` |
| Upload.IngestSameDirectory | server/middleware/upload.js:14-16 | images and videos are stored directly in /upload under the generated name |
| ImageProcessor.FileSystem.constructor | server/utils/imageProcessor.js:5-11 | the disk holds the given files and directories |
| ImageProcessor.ProcessOutcome | server/utils/imageProcessor.js:52-55 | any failure is reported as "Failed to process image" |
| ImageProcessor.ProcessedName | server/utils/imageProcessor.js:20-21 | the rendition name is the input's stem with ".jpg"; stated by `ImageProcessor.ProcessedPathStable` |
| ImageProcessor.ProcessedPath | server/utils/imageProcessor.js:22 | the full-size rendition in /upload; stated by `ImageProcessor.ProcessedPathsShape` and `ImageProcessor.ProcessedPathStable` |
| ImageProcessor.ThumbnailPath | server/utils/imageProcessor.js:23 | the thumbnail in /upload/thumbnails; stated by `ImageProcessor.ProcessedPathsShape` |
| ImageProcessor.KeepsOriginal | server/utils/imageProcessor.js:44 | the original is kept when its lower-cased extension is ".jpg"; stated by `ImageProcessor.KeepsOriginalIff` |
| ImageProcessor.FilesAfterProcess | server/utils/imageProcessor.js:18-46 | the files after processing: full-size rendition, thumbnail, then the unlink; stated by `ImageProcessor.ProcessSuccessEffects` and `ImageProcessor.ProcessFailureEffects` |
| ImageProcessor.ProcessedNamePlain | server/utils/imageProcessor.js:21-23 | the rendition name is a plain segment, so the join appends it |
| ImageProcessor.ProcessImage | server/utils/imageProcessor.js:18-56 | returns the outcome of both renditions and leaves the disk as the processing function says: renditions written, non-JPEG original removed |
| ImageProcessor.ProcessedPathsShape | server/utils/imageProcessor.js:48-51 | the two returned paths name the same file in /upload and /upload/thumbnails, and differ |
| ImageProcessor.ProcessedPathStable | server/utils/imageProcessor.js:20-23 | the renditions have extension ".jpg" and the input's stem, so processing a rendition again targets the same path |
| ImageProcessor.RenditionIsKept | server/utils/imageProcessor.js:44-46 | an input that is removed is never one of its own renditions |
| ImageProcessor.ProcessSucceedsIff | server/utils/imageProcessor.js:26-41 | processing succeeds exactly when the input exists and the codec renders both outputs |
| ImageProcessor.ProcessSuccessEffects | server/utils/imageProcessor.js:26-46 | after success both renditions exist and the original survives exactly when its extension is ".jpg" in any case |
| ImageProcessor.ProcessFailureEffects | server/utils/imageProcessor.js:26-41 | after a failure nothing is removed, no thumbnail is written, and at most the full-size rendition was added |
| ImageProcessor.KeepsOriginalIff | server/utils/imageProcessor.js:44 | the original is kept exactly when its lower-cased extension is ".jpg" |
| ImageProcessor.JpgProcessedInPlace | server/utils/imageProcessor.js:20-32 | for a lower-case ".jpg" upload the full-size rendition's target path is the input path itself, and the original is not unlinked |
| ImageProcessor.DeleteImage | server/utils/imageProcessor.js:62-80 | the disk becomes what the image-deletion function says; directories are unchanged |
| ImageProcessor.DeleteVideo | server/utils/imageProcessor.js:86-99 | the disk becomes what the video-deletion function says; directories are unchanged |
| ImageProcessor.FilesAfterDeleteImage | server/utils/imageProcessor.js:62-80 | the files after `deleteImage`; stated by `ImageProcessor.DeleteGuard`, `ImageProcessor.DeleteConfined` and `ImageProcessor.DeleteImageRemovesBoth` |
| ImageProcessor.FilesAfterDeleteVideo | server/utils/imageProcessor.js:86-99 | the files after `deleteVideo`: the same guard, one path; stated by `ImageProcessor.DeleteGuard` and `ImageProcessor.DeleteConfined` |
| ImageProcessor.DeleteGuard | server/utils/imageProcessor.js:64 | with no URL, or a URL outside "/upload/", nothing is deleted |
| ImageProcessor.DeleteConfined | server/utils/imageProcessor.js:66-68 | whatever the URL, only /upload/name and /upload/thumbnails/name, for one plain name, can be deleted |
| ImageProcessor.DeleteImageRemovesBoth | server/utils/imageProcessor.js:66-76 | for a plain basename, both the image and its thumbnail are removed |
| ImageProcessor.DeleteUndoesProcess | server/utils/imageProcessor.js:48-76 | deleting by the returned full-size URL removes both renditions |
| Gallery.UpdateFieldValue | server/routes/gallery.js:84-114 | the update binds each column to the value supplied for it, or not at all |
| Gallery.UpdateFieldValues | server/routes/gallery.js:84-114 | the six columns are bound to the new renditions, the texts, the parsed order and the coerced flag, when supplied |
| Gallery.ColumnValue | server/routes/gallery.js:84-114 | for each of the six column names, the value the update binds to that column: the new renditions, the two texts, the parsed order or the coerced flag |
| Gallery.UpdateStatementShape | server/routes/gallery.js:84-122 | the SET list has one entry per supplied field, starts with the two rendition URLs when a file came, and is well numbered |
| Gallery.UpdateWritesSupplied | server/routes/gallery.js:120-122 | executing the update changes exactly the supplied columns |
| Gallery.UpdateFields | server/routes/gallery.js:84-114 | the supplied fields in push order, the renditions first; stated by `Gallery.UpdateFieldValues` and `Gallery.UpdateStatementShape` |
| Gallery.OrderValue | server/routes/gallery.js:106-108 | `parseInt(display_order)`, NaN when no number leads; stated by `Gallery.NaNOrderRefused` |
| Gallery.Coerce | server/routes/gallery.js:111-114 | true only for the text 'true' or the boolean true; stated by `Gallery.UpdateFieldValues` and `GalleryAdmin.ToggleFlips` |
| Gallery.StoredOrder | server/routes/gallery.js:39-62 | 0 when omitted, else the database's integer cast of the text; stated by `GalleryAdmin.UploadOrderRead` |
| Gallery.NaNOrderRefused | server/routes/gallery.js:106-108 | a display order that parses to NaN reaches the statement as a value the database refuses |
| Gallery.SetOrder | server/routes/gallery.js:148-151 | one batch UPDATE changes only the display order of the rows with the item's id; the effect of a whole batch is `Gallery.ReorderResult` |
| Gallery.ApplyOrders | server/routes/gallery.js:147-152 | applying the items keeps the row count |
| Gallery.ReorderResult | server/routes/gallery.js:147-152 | after a batch, each row carries the order of the last item naming it, or its old order |
| Gallery.ActiveRows | server/routes/gallery.js:26 | the filtered rows are all active and drawn from the table |
| Gallery.ActiveRowsComplete | server/routes/gallery.js:26 | every active row is kept by the filter |
| Gallery.ActiveListingSpec | server/routes/gallery.js:23-34 | the public listing holds at most ten active rows in display order, and every active row left out orders no earlier than those listed |
| Gallery.ActiveListing | server/routes/gallery.js:23-27 | the active rows sorted by display order, at most ten; stated by `Gallery.ActiveListingSpec` |
| Gallery.ActiveRowListed | server/routes/gallery.js:23-27 | in a table of at most ten rows every active row is in the public listing |
| Gallery.GalleryTable.constructor | server/routes/gallery.js:7 | the table starts empty and valid |
| Gallery.GalleryTable.Active | server/routes/gallery.js:23-34 | answers the active listing |
| Gallery.GalleryTable.Create | server/routes/gallery.js:37-70 | the cap is checked before the file; a failed processing answers 500; on success one row with the renditions and the stored order is appended; the table never grows past ten; a created row is active, so it appears in the public listing, since the table never exceeds ten rows |
| Gallery.GalleryTable.Execute | server/routes/gallery.js:120-128 | the row with the id is rewritten by the statement; no row is found exactly when the id is absent |
| Gallery.GalleryTable.Prepare | server/routes/gallery.js:80-118 | no statement exactly when nothing was supplied; otherwise the supplied fields' statement |
| Gallery.GalleryTable.Update | server/routes/gallery.js:73-135 | processes the file first; a processing failure answers 500; no fields answers 400; an absent id answers 404; on success only that row changes |
| Gallery.GalleryTable.SetDisplayOrder | server/routes/gallery.js:148-151 | one UPDATE of the batch |
| Gallery.GalleryTable.Reorder | server/routes/gallery.js:138-160 | a missing or empty list answers 400 and changes nothing; otherwise the items are applied in order and the reordered table is answered |
| Gallery.GalleryTable.Delete | server/routes/gallery.js:163-178 | 404 exactly when the id is absent; otherwise exactly that row is removed (the files stay on disk) |
| Gallery.RemoveKeepsUnique | server/routes/gallery.js:167 | removing a row keeps ids unique, and the removed id is gone |
| Bot.ContextRenaming | server/routes/bot.js:100-107 | the context carries exactly the six stored texts: renaming it back gives the fields, and two contexts are equal exactly when the fields are |
| Bot.ContextOf | server/routes/bot.js:100-107 | the renaming into the context shape; stated by `Bot.ContextRenaming` |
| Bot.FindUser | server/routes/bot.js:46-48 | None exactly when no row belongs to the user; otherwise a row that does |
| Bot.FindToken | server/routes/bot.js:91-95 | None exactly when no row holds the token; otherwise a row that does |
| Bot.SaveSpec | server/routes/bot.js:46-75 | a save keeps user and token unique, and the user's configuration afterwards holds the saved fields |
| Bot.Save | server/routes/bot.js:46-75 | one save: overwrite the fields or insert with the fresh token; stated by `Bot.SaveSpec`, `Bot.SaveKeeps` and `Bot.TokenIssuedOnce` |
| Bot.SaveKeeps | server/routes/bot.js:48-61 | a save changes no other user's configuration; an existing configuration changes only its fields; a first save adds a row with the next id and the generated token |
| Bot.TokenIssuedOnce | server/routes/bot.js:62-74 | after any run of saves the table keeps both uniqueness constraints, and a user's existing configuration keeps its id, owner and public token |
| Bot.FirstSaveIssuesToken | server/routes/bot.js:62-74 | a user's first save succeeds exactly when the generated token is unused, and then issues that token |
| Bot.ContextFor | server/routes/bot.js:87-109 | 404 "Invalid Token" exactly when no row holds the token; otherwise the renamed configuration of a row holding it |
| Bot.BotConfigTable.constructor | server/create_bot_table.js:5-18 | the table starts empty and valid |
| Bot.BotConfigTable.GetConfig | server/routes/bot.js:12-26 | the user's configuration, or None (answered as an empty object) when there is none |
| Bot.BotConfigTable.SaveConfig | server/routes/bot.js:33-80 | the table becomes the result of one save, and the answer is the user's stored row |
| Bot.BotConfigTable.Context | server/routes/bot.js:87-114 | the context lookup depends on the token alone |
| Server.FindByEmail | server/index.js:42-43 | None exactly when the email is absent from the request or from every row; otherwise the first row holding it |
| Server.Login | server/index.js:39-61 | the login answer; stated by `Server.LoginFailureUniform` and `Server.LoginSuccess` |
| Server.LoginFailureUniform | server/index.js:45-52 | an unknown email and a wrong password get the same 401 "Invalid credentials" |
| Server.LoginSuccess | server/index.js:39-55 | login succeeds exactly for a known email whose first row's hash matches; the token signs that user's id and email for 8h |
| Server.Gate | server/index.js:64-75 | the gate rejects only with 401 or 403 |
| Server.GateOutcomes | server/index.js:65-73 | 401 exactly when there is no second word; 403 exactly when verification fails; otherwise the verified claims are admitted |
| Server.TokenSegment | server/index.js:65-66 | `authHeader && authHeader.split(' ')[1]`; stated by `Server.SchemeIgnored`, `Server.SecondWord` and `Server.SingleWordRejected` |
| Server.SchemeIgnored | server/index.js:66 | the token is the second space-separated word, whatever the first word is |
| Server.SecondWord | server/index.js:66 | a header "scheme token rest" splits with the token as its second part |
| Server.FirstWord | server/index.js:66 | the first part of a split is the text up to the first separator |
| Server.SingleWordRejected | server/index.js:66-68 | a header of a single word carries no token and is rejected with 401 |
| Server.Routed | server/index.js:80-147 | project creation and deletion run only after the gate admits, with the claims; the other routes run without the gate; the gate's own answers are `Server.GateOutcomes` |
| Server.SeedSpec | server/index.js:22-36 | seeding leaves the table non-empty, never touches a non-empty table, makes the default admin findable, and is idempotent |
| Server.Seeded | server/index.js:22-36 | the table after `seedAdmin`: the admin row is added to an empty table only; stated by `Server.SeedSpec` |
| Server.AccountTable.constructor | server/index.js:22-24 | the table holds the given rows |
| Server.AccountTable.SeedAdmin | server/index.js:22-36 | the table becomes the seeded table; the id counter advances only when a row is added |
| AuthConfig.NameBeforeAt | server/auth.config.js:32 | the fallback name is the text before the first '@', or the whole email when there is none |
| AuthConfig.NameOf | server/auth.config.js:32 | `email.split('@')[0]`; stated by `AuthConfig.NameBeforeAt` |
| AuthConfig.Missing | server/auth.config.js:14 | a credential field that is absent or empty; stated by `AuthConfig.AuthorizeIff` |
| AuthConfig.Authorize | server/auth.config.js:13-38 | null on any failure, else id, email and name; stated by `AuthConfig.AuthorizeIff` |
| AuthConfig.AuthorizeIff | server/auth.config.js:13-38 | a user is answered exactly when both fields are non-empty, the lookup succeeds, the first matching row exists and its hash matches; the answer carries that row's id, email and fallback name |
| AuthConfig.Token.constructor | server/auth.config.js:42 | the token holds the given id |
| AuthConfig.SessionUser.constructor | server/auth.config.js:48 | the session user holds the given id |
| AuthConfig.Session.constructor | server/auth.config.js:48 | the session holds the given user |
| AuthConfig.JwtCallback | server/auth.config.js:42-47 | on sign-in the token takes the user's id; otherwise it is returned unchanged |
| AuthConfig.SessionCallback | server/auth.config.js:48-53 | with a token, the session user's id becomes the token's id; otherwise the session is returned unchanged |
| ProjectsSection.Images | src/components/ProjectsSection.tsx:7-9 | the project's own images when it has a non-empty list, else the main image alone at order 0 |
| ProjectsSection.Without | src/components/ProjectsSection.tsx:16 | filtering out index c shifts the later elements down by one |
| ProjectsSection.CoverFirst | src/components/ProjectsSection.tsx:14-17 | the cover moved to the front when 0 < c < n; stated by `ProjectsSection.CoverFirstSpec` |
| ProjectsSection.OrderedImages | src/components/ProjectsSection.tsx:7-17 | the fallback list, sorted by order, cover first; stated by `ProjectsSection.OrderedImagesSpec` |
| ProjectsSection.CoverIndex | src/components/ProjectsSection.tsx:11 | `cover_image_index || 0`; stated by `ProjectsSection.OrderedImagesSpec` |
| ProjectsSection.CoverFirstSpec | src/components/ProjectsSection.tsx:14-17 | the cover is moved to the front when its index is inside the list and not zero; the rest keep their order; nothing is lost or duplicated |
| ProjectsSection.OrderedImagesSpec | src/components/ProjectsSection.tsx:7-17 | the card shows every image of the project exactly once, sorted by order with the cover first |
| ProjectsSection.CarouselSpec | src/components/ProjectsSection.tsx:21-29 | from a valid index the carousel stays in range, advances one step per tick modulo the count, and stands still for a single image |
| ProjectsSection.Tick | src/components/ProjectsSection.tsx:25 | `(prev + 1) % n`; stated by `ProjectsSection.CarouselSpec` and `ProjectsSection.FullTurn` |
| ProjectsSection.FullTurn | src/components/ProjectsSection.tsx:25 | after as many ticks as images the carousel is back where it started |
| ProjectsSection.TagBadgeCases | src/components/ProjectsSection.tsx:31-40 | a tag containing "new" in any case is NEW, else one containing "featured" is FEATURED, else the upper-cased tag |
| ProjectsSection.TagBadge | src/components/ProjectsSection.tsx:31-40 | `getTagBadge`; stated by `ProjectsSection.TagBadgeCases` |
| ProjectsSection.CardTags | src/components/ProjectsSection.tsx:65 | the card shows the first two tags at most, in order |
| ProjectsSection.CategoryLabel | src/components/ProjectsSection.tsx:97 | the label is "Construction" exactly when the category is absent, empty or "Construction" itself, and is never empty |
| ProjectDetailModal.NavigationSpec | src/components/ProjectDetailModal.tsx:41-47 | next and previous stay in range, wrap at the ends and undo each other |
| ProjectDetailModal.Prev | src/components/ProjectDetailModal.tsx:45-47 | `(prev - 1 + n) % n`; stated by `ProjectDetailModal.NavigationSpec` |
| ProjectDetailModal.ClicksInRange | src/components/ProjectDetailModal.tsx:110-139 | any run of clicks on rendered controls shows an existing image, and a thumbnail click shows that thumbnail's image |
| ProjectDetailModal.NextFullTurn | src/components/ProjectDetailModal.tsx:41-43 | n presses of next come back to the starting image |
| ProjectDetailModal.ModalBadges | src/components/ProjectDetailModal.tsx:160-165 | the modal shows a badge for every tag, in order; each badge is classified as `ProjectsSection.TagBadgeCases` states |
| ProjectPreview.PreviewNavigation | src/components/admin/ProjectPreview.tsx:18-28 | both arrows stay in range, undo each other, and agree with the card's and the modal's navigation |
| ProjectPreview.Next | src/components/admin/ProjectPreview.tsx:18-22 | the explicit forward wrap; stated by `ProjectPreview.PreviewNavigation` |
| ProjectPreview.Prev | src/components/admin/ProjectPreview.tsx:24-28 | the explicit backward wrap; stated by `ProjectPreview.PreviewNavigation` |
| ProjectPreview.WalkInRange | src/components/admin/ProjectPreview.tsx:51-83 | from a shown image, any run of clicks on rendered controls keeps the index in range |
| GalleryAdmin.MoveSpec | src/pages/admin/Gallery.tsx:88-93 | a drag-over move keeps the same images, puts the dragged one at the target slot, and keeps the others in their relative order |
| GalleryAdmin.Move | src/pages/admin/Gallery.tsx:89-92 | the two splices; stated by `GalleryAdmin.MoveSpec` and `GalleryAdmin.MoveCompose` |
| GalleryAdmin.Remove | src/pages/admin/Gallery.tsx:91 | `splice(d, 1)`; stated by `GalleryAdmin.MoveSpec` (through its helper `RemoveMultiset`) |
| GalleryAdmin.InsertAt | src/pages/admin/Gallery.tsx:92 | `splice(t, 0, x)`; stated by `GalleryAdmin.MoveSpec` (through its helper `InsertAtSpec`) |
| GalleryAdmin.MoveCompose | src/pages/admin/Gallery.tsx:85-96 | successive drag-overs compose into a single move from the first slot to the last |
| GalleryAdmin.PositionalOrder | src/pages/admin/Gallery.tsx:102-105 | the batch gives each image its position on screen; that the server then stores each position is `GalleryAdmin.PositionalOrderApplied` |
| GalleryAdmin.PositionalOrderApplied | src/pages/admin/Gallery.tsx:98-107 | with distinct ids, the server's reorder gives every image the order of its position |
| GalleryAdmin.UploadOrderRead | src/pages/admin/Gallery.tsx:40-46 | an upload is a POST whose order text the database casts to an integer: with a cast that reads decimal digits, the new row stores the current image count; `parseInt` reads the same text as the count too |
| GalleryAdmin.UploadOrder | src/pages/admin/Gallery.tsx:44 | `images.length.toString()`; stated by `GalleryAdmin.UploadOrderRead` |
| GalleryAdmin.ToggleFlips | src/pages/admin/Gallery.tsx:60 | the toggle's text is coerced by the server to the opposite of the current flag |
| GalleryAdmin.ToggleText | src/pages/admin/Gallery.tsx:60 | `(!image.is_active).toString()`; stated by `GalleryAdmin.ToggleFlips` |
| GalleryAdmin.GalleryPage.constructor | src/pages/admin/Gallery.tsx:10-13 | no images and no drag in progress |
| GalleryAdmin.GalleryPage.Load | src/pages/admin/Gallery.tsx:19-22 | the page shows the fetched images |
| GalleryAdmin.GalleryPage.Upload | src/pages/admin/Gallery.tsx:31-55 | a request is sent exactly when a file was chosen and fewer than ten images are shown, carrying the current count as the order |
| GalleryAdmin.GalleryPage.DragStart | src/pages/admin/Gallery.tsx:81-83 | records the dragged index |
| GalleryAdmin.GalleryPage.DragOver | src/pages/admin/Gallery.tsx:85-96 | nothing changes without a drag or over the dragged slot itself; otherwise the dragged image moves to the slot, which becomes the dragged index |
| GalleryAdmin.GalleryPage.DragEnd | src/pages/admin/Gallery.tsx:98-115 | after a drag, the positional batch of the shown images is sent; the drag index is cleared in every case |
| Toasts.Dismiss | src/components/ui/ToastContext.tsx:41-43 | the filter keeps only toasts with another id, all drawn from the list |
| Toasts.DismissAppend | src/components/ui/ToastContext.tsx:42 | the filter splits over concatenation |
| Toasts.DismissKeeps | src/components/ui/ToastContext.tsx:42 | every toast with another id survives |
| Toasts.DismissAbsent | src/components/ui/ToastContext.tsx:42 | removing an id no toast carries changes nothing |
| Toasts.DismissIdempotent | src/components/ui/ToastContext.tsx:36-43 | removing an id twice, by timer and by hand, is removing it once |
| Toasts.DismissOwn | src/components/ui/ToastContext.tsx:31-39 | a toast's own timer, however many toasts came after it, removes it and only it when its id is fresh |
| Toasts.ToastBoard.constructor | src/components/ui/ToastContext.tsx:29 | no toasts |
| Toasts.ToastBoard.AddToast | src/components/ui/ToastContext.tsx:31-39 | appends one toast with the fresh id, kind and message |
| Toasts.ToastBoard.RemoveToast | src/components/ui/ToastContext.tsx:41-43 | the list becomes the filtered list |
| Toasts.UseToast | src/components/ui/ToastContext.tsx:20-26 | throws "useToast must be used within a ToastProvider" exactly when there is no provider; otherwise yields the provider's board; the provider's list operations are stated by `Toasts.DismissOwn` and `Toasts.DismissIdempotent` |
| Chatbot.BotText | src/components/FloatingChatbot.tsx:71-86 | the bot text is the reply's response, else its message, else the apology; the connection error on failure; never empty |
| Chatbot.AlternatingExtend | src/components/FloatingChatbot.tsx:52-78 | a visitor message followed by a bot message keeps the conversation alternating |
| Chatbot.ChatWindow.constructor | src/components/FloatingChatbot.tsx:14-22 | the conversation opens with the greeting from the bot; the input is empty and nothing is loading |
| Chatbot.ChatWindow.Type | src/components/FloatingChatbot.tsx:191 | the input takes the typed value |
| Chatbot.ChatWindow.Begin | src/components/FloatingChatbot.tsx:41-54 | blank text changes nothing; otherwise the trimmed text is appended as the visitor's message and sent, the input is cleared, and loading is set |
| Chatbot.ChatWindow.Finish | src/components/FloatingChatbot.tsx:70-90 | exactly one bot message answering the reply is appended, and loading is cleared |
| Chatbot.ChatWindow.SendMessage | src/components/FloatingChatbot.tsx:41-96 | a send grows the conversation by the visitor's trimmed message and its one answer, or not at all; the conversation keeps alternating |
| Chatbot.ChatWindow.KeyPress | src/components/FloatingChatbot.tsx:98-103 | Enter without Shift sends the input; any other key changes nothing |

## Left out

- The image codec's work (resizing, cropping, JPEG encoding and quality) is a predicate saying whether each rendition succeeds. Pixel arithmetic is not modelled.
- bcrypt hashing and comparison, JWT signing and verification, the Auth.js framework around `authorize`, and uuid and `Math.random` generation are parameters. Their internals are not part of this model.
- Not modelled for the database:
  - SQL text;
  - `created_at`/`updated_at`/`last_login` timestamps and `created_at` ordering;
  - the DDL beyond the two bot-table uniqueness constraints;
  - the connection pool;
  - database errors that turn into 500 answers, apart from four: a display order that parses to NaN, a value outside the 32-bit integer range (`Gallery.Storable`), a creation order the integer cast refuses (`Gallery.GalleryTable.Create`), and a bot-config insert whose generated token is already taken (`Bot.Save`).
- The list routes `GET /api/users` and `GET /api/gallery` return whole tables without logic. They are not modelled at all, and neither router is mounted in `server/index.js`.
- `GET /api/services` and `GET /api/projects` return whole tables without logic. Only their being ungated is modelled (`Server.Routed`).
- Path ids (`req.params.id` in server/routes/users.js and server/routes/gallery.js) are strings in the source but integers in the model. A non-numeric id makes PostgreSQL refuse the integer comparison, and the handler's catch answers 500. The model cannot express that answer.
- Project insertion and deletion in `server/index.js` are modelled only as gated routes. Their SQL bodies are plain inserts and deletes.
- `/health` and the static frontend routes are modelled only as ungated routes.
- PostgreSQL's order among rows with equal display order is not modelled: the stable sort keeps table order.
- The reorder batch is not atomic: each UPDATE applies on its own. Concurrency between requests is not modelled: each route runs to completion.
- Router mounting and middleware order beyond the token gate are not modelled.
- Directory creation when a module loads is not modelled: the disk starts in its set-up layout.
- Request bodies carry strings, or for the active flag a string or boolean. Other JSON value types are not modelled.
- A non-numeric `cover_image_index` (NaN) is not modelled: the index is an integer or absent.
- Timers are not modelled as time: the toast's 5-second dismissal and the card's 4-second tick are steps taken later.
- Chatbot message timestamps and the session id sent with each request are not modelled. Rendering, CSS and scrolling are not modelled either.
- Chatbot.ChatWindow.Begin requires that no reply is pending, because the input is disabled while loading (src/components/FloatingChatbot.tsx:193). Sends overlapping a pending reply are not modelled.
- GalleryAdmin.GalleryPage.Load requires no drag in progress: a reload during a drag is not modelled.
- The other client pages (login form, users page, bot settings, file upload zone, parallax gallery, fetch wrappers) are plain forms around the modelled routes. They are not part of this model.
- JsString.ToUpper maps only the ASCII letters, while `toUpperCase` maps all of Unicode ('ñ' to 'Ñ', 'ß' to "SS"). ToLower is ASCII-only too; at each place it is used the patterns are ASCII, so the tests give the same answer.
- ProjectsSection.TagBadgeCases: the fallback badge text is the tag upper-cased by the ASCII mapping, so a tag with non-ASCII letters ("baño") keeps them in lower case, and a tag with 'ß' keeps its length.
- Users.UserTable.Create: the INSERT (server/routes/users.js:78) does not supply `is_active`, so the column takes the table's default. The DDL is not part of this model; the default is taken to be true.
- Gallery.GalleryTable.Create: the INSERT (server/routes/gallery.js:61) does not supply `is_active`, so the column takes the table's default. The DDL is not part of this model; the default is taken to be true, which is what puts a new image in the public listing.
- Bot.BotConfigTable.SaveConfig: when the insert fails on a taken token, the id counter stays where it was. PostgreSQL's serial sequence has already used up that value, so the next row's id in the model can differ from the database's.
- `ImageProcessor.ProcessImage` assumes the codec either writes a rendition or fails. Partially written output files are not modelled.
