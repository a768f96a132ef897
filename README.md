# PaperLords admin backend: papers and admins

This is a Dafny model of the backend of the PaperLords admin panel, a small Express/Mongoose service. It covers four pieces:

- **The Paper schema.** This covers the field rules, the setters (`trim`, `uppercase`) and the `pre('save')` hook that refreshes `updatedAt`.
- **The papers controller.** This covers `create`, `getAll` (filter, sort, skip, limit, count), `getById`, `update`, `delete` and `getStats`.
- **The two authentication middlewares.**
- **The account controller.** This covers `register`, `login` and `getProfile`.

The database, the token library and the clock are stand-ins:

- The Paper collection is a class `PaperStore` holding a map from id to paper. The handlers update that map in place.
- The Admin collection is a class `AdminRegistry` over a map.
- A failing database call is a boolean parameter (`fault`, `lookupFault`, `saveFault`). When it is set, the handler takes its `catch` branch.
- `jwt.sign` is a parameter `sign` from admin id to token.
- `jwt.verify` is a parameter `verify`, a partial function from token to admin id. `None` stands for the cases where it throws.
- The time of a request is a parameter `now`.
- Fresh ObjectIds are parameters that the caller guarantees are unused.

Modules, in dependency order:

- `Wrappers`: `Option` and `Result`.
- `Text`: the string operations the source relies on, namely `String.prototype.trim` with the ECMAScript white-space set, ASCII `toUpperCase`, first-occurrence `replace`, `parseInt` and MongoDB's string order.
- `ObjectIds`: the id types, the printed form of an ObjectId, and the strings Mongoose casts to one.
- `Sorting`: insertion sort under a total preorder, and `$limit`.
- `PaperModel`: validation of a paper as a list of field errors, casting with the setters, building the saved document, and the partial update merge.
- `PaperQuery`: exact-match filters, the one-field sort order, the skip/limit window and the page count.
- `PaperStats`: `$group` counts and the two top-k aggregates.
- `PapersController`: the `PaperStore` class and the papers handlers.
- `AuthMiddleware`: the token gate and the super-admin gate, as pure decisions and as methods on a `Request` object.
- `AuthController`: the `AdminRegistry` class, registration, the placeholder login and the profile lookup.

The model follows the code, including these behaviours:

- **getProfile with no admin.** `getProfile` answers `null` with status 200 when no admin has the id; it never answers 404.
- **addedBy on update.** `update` passes the whole body through, so it can reassign `addedBy`.
- **createdAt from the body.** Both `create` and `update` accept a `createdAt` from the body.
- **The login token is unusable.** `login` answers with a token for the placeholder id `dummy-admin-id`. That id is not an ObjectId, so `authMiddleware` never finds an admin for it, and every protected route answers such a token with 401 (`AuthController.LoginTokenRejected`).
- **Update validates before the lookup.** Mongoose runs the update validators before the query, so `update` answers 400 to an invalid body even when the id does not exist. A valid body with an unknown id gets 404.
- **The year parameter.** `getAll` reads `year` with `parseInt` and no radix. Leading white space is skipped, one sign is read, "0x" or "0X" switches to base 16, and text after the digits is ignored; text with no digits fails the cast and answers 500.
- **Zero limit.** `getAll` with `limit=0` returns every selected document, because `.limit(0)` sets no limit, and `totalPages` is `null`.
- **Page 0.** `page=0` with a positive limit makes the skip negative, which MongoDB refuses, so the answer is 500.
- **Unparsable year.** A `year` that `parseInt` cannot read is refused by the cast, also with 500. `parseInt` is called without a radix, so `year=0x7E7` filters on 2023 and `year=0x` is unreadable.
- **Subject filters are trimmed.** Casting a query filter runs the path's setters, so `subject=%20Physics` selects the papers on "Physics". A `subject` of blanks alone still filters, on the empty subject, and selects nothing.
- **addedBy must cast on update.** An `update` body whose `addedBy` is not 24 hexadecimal digits fails the ObjectId cast before validation and answers 400.

## Model

| member | source | states |
|---|---|---|
| PaperModel.NewPaper | paperlords-admin/backend/src/models/paper.model.js:3-70 | A create body is rejected exactly when validation after the setters finds errors, and the error list is those errors. An accepted body has every required field present. The saved paper is well formed, with title and subject trimmed, type upper-cased, the other fields copied, createdAt defaulting to the time of the save and updatedAt set to it. |
| PaperModel.NewPaperAcceptsIff | paperlords-admin/backend/src/models/paper.model.js:3-64 | A body is accepted if and only if, path by path, the required fields are present and not blank after trimming, the upper-cased type is IGCSE or IAL, 2000 <= year <= max, season and paperType are in their enums, the link has an allowed prefix, and addedBy is non-empty. |
| PaperModel.CreateErrorsEmptyIff | paperlords-admin/backend/src/models/paper.model.js:3-64 | The create error list is empty if and only if the body is acceptable on every path. |
| PaperModel.CheckPassesIff | paperlords-admin/backend/src/models/paper.model.js:3-55 | The validator of one path passes on the cast body if and only if the raw body meets that path's condition. |
| PaperModel.ErrorsIff | paperlords-admin/backend/src/models/paper.model.js:3-55 | An error is in the list exactly when the validator of its path reports it, so each path yields at most one error. |
| PaperModel.ErrorsEmptyIff | paperlords-admin/backend/src/models/paper.model.js:3-55 | The error list is empty if and only if every path's validator passes. |
| PaperModel.AbsentPathReported | paperlords-admin/backend/src/models/paper.model.js:3-55 | On create, a missing path is reported as Required. On update, a missing path is never reported. |
| PaperModel.TrimmedRequiredIff | paperlords-admin/backend/src/models/paper.model.js:4-19 | A trimmed required string passes `required` if and only if it is present and not all white space. |
| PaperModel.KindErrorIff | paperlords-admin/backend/src/models/paper.model.js:9-14 | A given type is reported NotInEnum if and only if it is non-empty and its upper-cased form is neither IGCSE nor IAL (an empty one is reported by `required`). |
| PaperModel.LowerCaseTypeStoredUpper | paperlords-admin/backend/src/models/paper.model.js:9-14 | A body with type "igcse" and acceptable other fields is accepted and stored with type "IGCSE". |
| PaperModel.YearErrorIff | paperlords-admin/backend/src/models/paper.model.js:20-25 | A given year is BelowMin if and only if it is below 2000. It is AboveMax if and only if it is at least 2000 and above the load-time maximum. |
| PaperModel.DriveLinkPatternIff | paperlords-admin/backend/src/models/paper.model.js:39-45 | The anchored pattern `^https?://(host)` matches if and only if the link starts with http:// or https:// followed by one of the three hosts; the rest is unconstrained. |
| PaperModel.DriveLinkRequiredIff | paperlords-admin/backend/src/models/paper.model.js:36-46 | The driveLink validators pass on create if and only if the link is present and has an allowed prefix. |
| PaperModel.DriveLinkErrorIff | paperlords-admin/backend/src/models/paper.model.js:36-46 | A non-empty link is reported Invalid if and only if it lacks an allowed prefix. |
| PaperModel.PassingChecksWellFormed | paperlords-admin/backend/src/models/paper.model.js:3-70 | When every validator passes, all required paths are present and the built document meets every schema rule. |
| PaperModel.SettersIdempotent | paperlords-admin/backend/src/models/paper.model.js:4-19 | Applying the trim and uppercase setters twice gives the same body as once. |
| PaperModel.MergeKeepsWellFormed | paperlords-admin/backend/src/controllers/papers.controller.js:100-107 | Merging a body that the update validators accept into a well-formed paper gives a well-formed paper. |
| PaperModel.EmptyUpdate | paperlords-admin/backend/src/controllers/papers.controller.js:100-107 | An update that sets no path passes validation and changes only updatedAt. |
| Text.Trim | paperlords-admin/backend/src/models/paper.model.js:7 | The trimmed string is no longer than the input and has no leading or trailing white space. |
| Text.TrimSplit | paperlords-admin/backend/src/models/paper.model.js:7 | Trimming removes an all-white-space prefix and suffix, and nothing else. |
| Text.TrimIdempotent | paperlords-admin/backend/src/models/paper.model.js:7 | Trimming twice is trimming once. |
| Text.TrimEmptyIff | paperlords-admin/backend/src/models/paper.model.js:4-8 | A string trims to "" if and only if it is all white space. |
| Text.ToUpper | paperlords-admin/backend/src/models/paper.model.js:13 | Upper-casing keeps the length and maps each character through the ASCII case map. |
| Text.ToUpperIdempotent | paperlords-admin/backend/src/models/paper.model.js:13 | Upper-casing twice is upper-casing once. |
| Text.FindFrom | paperlords-admin/backend/src/middleware/auth.middleware.js:7 | The result is the first occurrence of the pattern at or after the start, or None when there is none. |
| Text.ReplaceFirstCases | paperlords-admin/backend/src/middleware/auth.middleware.js:7 | A string that starts with the pattern loses exactly that prefix. A string without the pattern is unchanged. |
| Text.ParseUnsigned | paperlords-admin/backend/src/controllers/papers.controller.js:46 | What parseInt reads after the blanks and the sign. Text starting "0x" or "0X" is read in base 16 and gives NaN (None) if and only if no hexadecimal digit follows the prefix. Any other text is read in base 10 and gives NaN if and only if it does not start with a digit. An all-digit string gives its decimal value, and a prefix followed only by hexadecimal digits gives their value. |
| Text.TrimStartSkips | paperlords-admin/backend/src/controllers/papers.controller.js:46 | parseInt skips a run of white space (the set `trim` removes) and stops at the first character that is not white space. |
| Text.ReadSignedSign | paperlords-admin/backend/src/controllers/papers.controller.js:46 | After "+", the number read is the unsigned reading of the rest. After "-", it is that reading negated. NaN stays NaN. |
| Text.ParseIntSkipsBlanks | paperlords-admin/backend/src/controllers/papers.controller.js:46 | parseInt skips leading white space and reads unsigned text that follows exactly as ParseUnsigned does, NaN included. |
| Text.ParseIntReadsSign | paperlords-admin/backend/src/controllers/papers.controller.js:46 | parseInt skips leading white space, reads one sign, and gives the unsigned reading of the rest, negated after "-"; NaN if and only if the rest reads as NaN. |
| Text.ParseUnsignedNumeral | paperlords-admin/backend/src/controllers/papers.controller.js:46 | The decimal numeral of n is read back as n, whatever non-digit text follows it, unless n is 0 and the text starts with "x" or "X". |
| Text.ParseUnsignedHexNumeral | paperlords-admin/backend/src/controllers/papers.controller.js:46 | "0x" or "0X" followed by the hexadecimal numeral of n is read as n, whatever non-hexadecimal text follows. |
| Text.ParseIntNumeral | paperlords-admin/backend/src/controllers/papers.controller.js:46 | parseInt reads white space followed by the decimal numeral of n as n, under the same condition on the text after the numeral. |
| Text.DigitPrefixIn | paperlords-admin/backend/src/controllers/papers.controller.js:46 | The result is the longest prefix of digits in the given base. |
| Text.ValueOfNumeral | paperlords-admin/backend/src/controllers/papers.controller.js:46 | The value of the numeral of n in any base from 2 to 36 is n. |
| Text.NumeralLeadingZero | paperlords-admin/backend/src/controllers/papers.controller.js:46 | A numeral starts with the digit 0 if and only if it is the numeral of 0. |
| Text.LexLeTotal | paperlords-admin/backend/src/controllers/papers.controller.js:54-55 | The string sort order is total. |
| Text.LexLeTransitive | paperlords-admin/backend/src/controllers/papers.controller.js:54-55 | The string sort order is transitive. |
| Sorting.SortBy | paperlords-admin/backend/src/controllers/papers.controller.js:54-55 | Sorting returns a permutation of its input. |
| Sorting.SortBySorted | paperlords-admin/backend/src/controllers/papers.controller.js:54-55 | Under a total preorder the result is in order. |
| Sorting.SortByDistinct | paperlords-admin/backend/src/controllers/papers.controller.js:54-55 | Sorting keeps keys distinct. |
| Sorting.Take | paperlords-admin/backend/src/controllers/papers.controller.js:174 | `$limit k` keeps the first min(k, n) elements, as a prefix. |
| Sorting.TakeOfSortedKeepsFirst | paperlords-admin/backend/src/controllers/papers.controller.js:173-185 | An element that `$limit` cuts from a sorted sequence has k elements before it, all ordered no later than it. |
| PaperQuery.KeyLeTotalPreorder | paperlords-admin/backend/src/controllers/papers.controller.js:51-55 | The order on sort keys (missing < numbers < strings) is total and transitive. |
| PaperQuery.OrderIsTotalPreorder | paperlords-admin/backend/src/controllers/papers.controller.js:51-55 | The one-field sort, ascending or descending, is a total preorder on papers. |
| PaperQuery.Window | paperlords-admin/backend/src/controllers/papers.controller.js:56-57 | skip/limit yields at most `limit` elements, exactly as many as remain after the skip, each taken from position skip+i. |
| PaperQuery.CeilDiv | paperlords-admin/backend/src/controllers/papers.controller.js:65 | The page count is the least number of pages whose capacity covers total. |
| PaperQuery.ListingLength | paperlords-admin/backend/src/controllers/papers.controller.js:60 | A listing of the selection is as long as countDocuments(filter). |
| PaperQuery.PageProperties | paperlords-admin/backend/src/controllers/papers.controller.js:54-67 | A page holds at most `limit` documents, exactly as many as remain after skip. Each is stored under its id and matches every supplied filter field. None is repeated, and the page is in sort order. |
| PaperQuery.PageNonEmptyIff | paperlords-admin/backend/src/controllers/papers.controller.js:56-65 | A page number of at least 1 gives a non-empty page if and only if it is at most totalPages. |
| PaperQuery.SecondOfThreePages | paperlords-admin/backend/src/controllers/papers.controller.js:54-67 | Page 2, ten to a page, over 25 selected documents holds 10 documents out of 3 pages. |
| PaperStats.Bump | paperlords-admin/backend/src/controllers/papers.controller.js:159-162 | Counting one more document raises that key's count by one, leaves the others, and keeps keys distinct and counts positive. |
| PaperStats.GroupCount | paperlords-admin/backend/src/controllers/papers.controller.js:157-164 | `$group` with `$sum: 1` gives distinct keys with positive counts, and each key's count is its number of occurrences. |
| PaperStats.GroupCountTrue | paperlords-admin/backend/src/controllers/papers.controller.js:157-164 | Every group carries its key's number of occurrences. |
| PaperStats.GroupCountCovers | paperlords-admin/backend/src/controllers/papers.controller.js:157-164 | Every key that occurs has a group. |
| PaperStats.TypeCounts | paperlords-admin/backend/src/controllers/papers.controller.js:156-164 | papersByType lists each type once, with the number of papers of that type. |
| PaperStats.TopGroups | paperlords-admin/backend/src/controllers/papers.controller.js:166-186 | group, sort and limit n gives at most n groups, in order, with distinct keys and true counts. |
| PaperStats.TopGroupsLeftOut | paperlords-admin/backend/src/controllers/papers.controller.js:166-186 | A key that occurs but is cut comes after all n listed groups. |
| PaperStats.YearGroups | paperlords-admin/backend/src/controllers/papers.controller.js:165-175 | papersByYear has at most 5 groups with strictly descending years and true counts. A year left out is older than every listed year, and then 5 are listed. |
| PaperStats.SubjectGroups | paperlords-admin/backend/src/controllers/papers.controller.js:176-186 | papersBySubject has at most 10 groups with non-increasing counts, distinct subjects and true counts. A subject left out has no more papers than any listed one, and then 10 are listed. |
| PaperStats.OfKind | paperlords-admin/backend/src/controllers/papers.controller.js:157-164 | The papers of one type are those of the listing with that type; there are as many as its count, without repeated ids. |
| PaperStats.TypeCountIsFilteredTotal | paperlords-admin/backend/src/controllers/papers.controller.js:157-164 | Each type's count in the stats equals the total that getAll reports when filtered on that type. |
| PapersController.QueryFilter | paperlords-admin/backend/src/controllers/papers.controller.js:43-48 | A filter field is set exactly when its parameter is truthy. The type is upper-cased, the subject trimmed by its setter, the year is the value parseInt gives, and season and paperType are copied. A year parseInt cannot read makes the query fail. |
| PapersController.BuildFilter | paperlords-admin/backend/src/controllers/papers.controller.js:43-48 | Building the filter one conditional assignment at a time gives QueryFilter. |
| PapersController.TotalPages | paperlords-admin/backend/src/controllers/papers.controller.js:65 | totalPages is null if and only if limit is 0, and otherwise the least page count covering total. |
| PapersController.Status | paperlords-admin/backend/src/controllers/papers.controller.js:15-200 | Every reply carries one of 200, 201, 400, 404 or 500. |
| PapersController.TypeQueryIgnoresCase | paperlords-admin/backend/src/controllers/papers.controller.js:44 | A type parameter and its upper-cased form build the same filter. |
| PapersController.YearQueryReadsLeadingDigits | paperlords-admin/backend/src/controllers/papers.controller.js:46 | `year=2023`, `year=%202023` and `year=2023abc` all filter on the number 2023: leading white space is skipped and reading stops at the first non-digit. Only "0" followed by "x" or "X" is read otherwise. |
| PapersController.YearQueryReadsSign | paperlords-admin/backend/src/controllers/papers.controller.js:46 | `year=-5` filters on -5 and `year=+2023` on 2023: after white space, one sign is read and the rest is read as without it. The query fails (500) if and only if the rest reads as NaN. |
| PapersController.YearQueryReadsHex | paperlords-admin/backend/src/controllers/papers.controller.js:46 | `year=0x7E7` filters on 2023: after any leading white space, a hexadecimal numeral after "0x" or "0X" is read as its value. |
| PapersController.YearQueryEmptyHexFails | paperlords-admin/backend/src/controllers/papers.controller.js:46 | `year=0x` with no hexadecimal digit after it, with or without leading white space, makes the query fail, so getAll answers 500. |
| PapersController.SubjectQueryIgnoresBlanks | paperlords-admin/backend/src/controllers/papers.controller.js:45 | A subject parameter with blanks around it builds the same filter as the trimmed one. |
| PapersController.BlankSubjectSelectsNothing | paperlords-admin/backend/src/controllers/papers.controller.js:45 | A subject parameter of blanks alone filters on the empty subject and selects no stored paper. |
| PapersController.PaperStore.constructor | paperlords-admin/backend/src/models/paper.model.js:24 | The collection starts empty, with the year maximum fixed when the schema loads: the load year plus one. |
| PapersController.PaperStore.Select | paperlords-admin/backend/src/controllers/papers.controller.js:54 | The scan returns every selected document once, each stored under its id and matching the filter. |
| PapersController.PaperStore.Create | paperlords-admin/backend/src/controllers/papers.controller.js:5-25 | addedBy is always the signed-in admin. A rejected body answers 400 with its errors, and a failed save answers 400; neither stores anything. Success stores the validated paper under the fresh id and answers 201 with it. |
| PapersController.PaperStore.GetAll | paperlords-admin/backend/src/controllers/papers.controller.js:28-74 | The page is a skip/limit window of some sorted listing of the selected documents. total is the number selected, totalPages is ceil(total/limit) and currentPage is page. Only matching stored documents are returned, at most `limit` of them. A failing query, an unparsable year or a negative skip answers 500. |
| PapersController.PaperStore.GetById | paperlords-admin/backend/src/controllers/papers.controller.js:77-95 | The stored paper (200), 404 when absent, or 500 on a failure. |
| PapersController.PaperStore.Update | paperlords-admin/backend/src/controllers/papers.controller.js:98-125 | An addedBy that is not 24 hexadecimal digits fails the cast and answers 400 before validation. A body the validators reject answers 400 with its errors. A failed update answers 400, and an unknown id 404; none of these change anything. Otherwise the supplied paths are merged into that one paper, updatedAt is refreshed, the new paper is returned, and every stored paper stays well formed. |
| PapersController.PaperStore.Delete | paperlords-admin/backend/src/controllers/papers.controller.js:128-148 | Removes exactly that paper and returns it. An unknown id answers 404 and a failure 500, both without change. |
| PapersController.PaperStore.GetStats | paperlords-admin/backend/src/controllers/papers.controller.js:151-201 | totalPapers is the number of documents, and each of the three aggregates is computed over a scan of the collection of its own, so their tie orders are independent; 500 on any failure. |
| PapersController.DeleteThenGetById | paperlords-admin/backend/src/controllers/papers.controller.js:77-148 | After a paper is deleted, fetching it answers 404. |
| PapersController.SortedListing | paperlords-admin/backend/src/controllers/papers.controller.js:54-55 | A permutation of a listing without repeated ids is a listing. |
| PapersController.StatsTotals | paperlords-admin/backend/src/controllers/papers.controller.js:153-194 | totalPapers is the size of the collection, and each type's count is getAll's total for that type. |
| AuthMiddleware.WithoutPassword | paperlords-admin/backend/src/middleware/auth.middleware.js:17 | The attached admin keeps id, username, email and role, and has no password. |
| AuthMiddleware.AuthDecision | paperlords-admin/backend/src/middleware/auth.middleware.js:4-29 | Every refusal is a 401. |
| AuthMiddleware.AuthDecisionIff | paperlords-admin/backend/src/middleware/auth.middleware.js:4-29 | A request passes if and only if its token is present, non-empty, verifies, and names a stored admin; that admin is then attached without password. |
| AuthMiddleware.TokenOfBearer | paperlords-admin/backend/src/middleware/auth.middleware.js:7 | `Bearer t` yields t, and a header without "Bearer " is taken whole. |
| AuthMiddleware.NoTokenRejected | paperlords-admin/backend/src/middleware/auth.middleware.js:7-11 | A missing header, or the bare "Bearer ", answers 401. |
| AuthMiddleware.SuperAdminGate | paperlords-admin/backend/src/middleware/auth.middleware.js:32-38 | The request passes if and only if an admin is attached and its role is "super-admin"; it then carries that admin, and every refusal is a 403. |
| AuthMiddleware.RegisterRouteIff | paperlords-admin/backend/src/middleware/auth.middleware.js:4-38 | Both gates pass if and only if the token names a stored super-admin. A valid token of any other role gets 403. |
| AuthMiddleware.Request.Authenticate | paperlords-admin/backend/src/middleware/auth.middleware.js:4-29 | On success req.admin is set and next runs once, with no status sent. Otherwise 401 is sent and next does not run. |
| AuthMiddleware.Request.RequireSuperAdmin | paperlords-admin/backend/src/middleware/auth.middleware.js:32-38 | next runs once for a super-admin, and otherwise 403 is sent; req.admin is untouched. |
| ObjectIds.PrintedIdsCast | paperlords-admin/backend/src/models/paper.model.js:51-55 | Every id in the printed form of an ObjectId (24 lower-case hexadecimal digits) passes the ObjectId cast (24 hexadecimal digits in either case). |
| AuthController.RoleOf | paperlords-admin/backend/src/controllers/auth.controller.js:32 | The role is the supplied one when truthy, and otherwise "admin". |
| AuthController.AuthStatus | paperlords-admin/backend/src/controllers/auth.controller.js:12-101 | Every reply carries one of 200, 201, 400 or 500. |
| AuthController.Login | paperlords-admin/backend/src/controllers/auth.controller.js:59-88 | Whatever the body, login answers a token for dummy-admin-id and the placeholder admin. |
| AuthController.AdminRegistry.Register | paperlords-admin/backend/src/controllers/auth.controller.js:12-56 | A taken email or username answers 400 with nothing stored, and a failed lookup or save answers 500. Otherwise the admin is stored with the role defaulting to "admin", and the answer is 201 with a token and the admin without password. Emails and usernames stay unique. |
| AuthController.AdminRegistry.GetProfile | paperlords-admin/backend/src/controllers/auth.controller.js:91-101 | The admin without password, null when absent (no 404), or 500 on a failure. |
| AuthController.SecondRegistrationRefused | paperlords-admin/backend/src/controllers/auth.controller.js:17-25 | After one registration, a second with the same email or username finds it taken. |
| AuthController.DummyIdNotObjectId | paperlords-admin/backend/src/controllers/auth.controller.js:63 | The placeholder id is not an ObjectId. |
| AuthController.LoginTokenRejected | paperlords-admin/backend/src/controllers/auth.controller.js:59-81 | The token login returns is refused with 401 by authMiddleware, even when it verifies. |
| AuthController.RegisteredTokenAccepted | paperlords-admin/backend/src/controllers/auth.controller.js:37-49 | A newly registered admin's token passes authMiddleware with that admin attached. It passes the super-admin gate if and only if the role is "super-admin". |

## Left out

- Text.ToUpper: only ASCII letters are upper-cased; the full Unicode case mapping of `toUpperCase` is not modelled.
- Text.ParseInt: values are unbounded, so the loss of precision of JavaScript numbers above 2^53 is not modelled, and "-0" reads as 0 rather than as negative zero (MongoDB matches the two alike).
- A `sortBy` MongoDB refuses as a field path (for example one starting with `$`, or with an empty path segment) makes `getAll` answer 500 in the source. The model sorts on such a field as a missing one.
- AuthMiddleware.AuthDecision: a failing `Admin.findById` sends `authMiddleware` to its `catch`, which answers 401. The model has no fault input for it, since the answer is the same as for an id that names no admin.
- PapersController.PaperStore.Update: top-level keys of the body that start with `$` (`$inc`, `$rename`, `$mul`, `$min`, `$max` and the like) are not modelled. `update` spreads the body into the update document, so Mongoose applies such keys as update operators, and the update validators do not check them. `Valid` is preserved only for bodies of plain fields, which is what `PaperBody` carries.
- PapersController.PaperStore.Update: an `addedBy` of 24 hexadecimal digits is stored as given. MongoDB stores the ObjectId, whose string form is lower-case. Casts of other id forms, such as 12-byte strings, are not modelled: only 24 hexadecimal digits cast.
- Query page and limit are the values of decimal strings. Non-numeric page or limit strings, which JavaScript coerces to NaN, are not modelled.
- Query parameters given more than once (arrays) and object-valued parameters (`a[b]=c`, built by Express 4's default "extended" query parser, qs) are not modelled. An object value such as `?subject[$ne]=x` reaches `Paper.find` as an operator filter and selects what that operator selects. `?type[$ne]=x` makes `toUpperCase` throw, so `getAll` answers 500. The model's query parameters are single strings.
- Papers and admins are keyed by string ids. Casting a malformed id to ObjectId in `getById`, `update` and `delete` (a 500 or 400 through the catch) is not modelled, nor is a client-supplied `_id` in a create body.
- `populate('addedBy', 'username')` is not modelled: replies carry the stored admin id.
- The secondary indexes in paper.model.js:73-75 have no observable effect on results and are left out.
- Sort ties are unspecified: `GetAll` promises some sorted listing, and each aggregate of `GetStats` some scan order of its own, not one particular order.
- `Promise.all` in `getStats` is modelled as four pure functions over one snapshot of the collection; concurrency is left out.
- Timestamps are plain integers, and one clock reading serves a whole request.
- PaperModel.NewPaper: years are integers. A fractional Number year such as 2023.5, which Mongoose accepts and stores when it lies within min and max, is not modelled; such a paper could never be selected by the `parseInt` year filter of `getAll` and would form its own year group in `getStats`.
- Body values of the wrong JSON type (a string year, `null`, objects) are not modelled; bodies carry typed optional fields. The body's own `updatedAt` is dropped, since both `save` and `update` overwrite it.
- Password hashing and the rest of the Admin schema are not shown in the source, so they are not part of this model: the password is stored as given, and `register` takes username, email and password as plain strings. An Admin schema validation failure is a failed save.
- Token signing, expiry and the secret are not modelled; `sign` and `verify` are parameters.
- The HTTP message texts, Express wiring, CORS, the database connection, `server.js`, the route files and the whole frontend are out of scope. The route order `authMiddleware` then `superAdminMiddleware` appears only in `AuthMiddleware.RegisterRouteIff`.
