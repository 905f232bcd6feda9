# right-seat: a Dafny model of its controllers, validators and helpers

right-seat is a server-rendered flight-training application (Express, Sequelize, MySQL). A flight
school is an *entity*. Its users have one of four privileges:

- the global administrator;
- an administrator (`admin`) of the entity;
- an instructor (`cfi`);
- a `student`.

The entity keeps *syllabi* of *lessons*. Each student works through the lessons of one syllabus.
Per-student progress rows (*user lessons*) carry a status and notes. The application computes
progress percentages, dashboards, listings with active-user counts, and a progress report.

This project models the logic of that application in Dafny and proves properties about it. The
database is a set of in-memory tables. Each table maps ids to rows and has an auto-increment
counter (`Tables`). The `Database` class holds the tables that the imperative handlers change in
place.

The repository has two controller lineages, and both are modelled:

- `controllers/*.controller.js`: the modules `UserController`, `Dashboard`, `Progress`,
  `SyllabusController`, `SyllabusStore`, `EntityController`, `Directory`, `Report`,
  `AuthController`, `MessageController` and `SubscriptionController`;
- the older `controllers/entity.js` and `controllers/syllabus.js`: the modules `EntityLineage` and
  `SyllabusLineage`.

The helpers around them are modelled too:

- `DbHook`: the trimming `beforeValidate` hook;
- `Validate`: the validation middleware;
- `AuthRoutes`: the sign-up and login validator chains;
- `Schemas`: the lesson, syllabus and entity model validators and `displayName`;
- `Registry`: the model and route registries;
- `StringUtils`: `capitalizeFirstLetter`;
- `Tx`: the transaction wrapper;
- `Text`: string primitives shared by all modules.

Outside calls are parameters of the model, each with the meaning the program gives it:

- the express-validator checks;
- the password hash check;
- "today";
- the way the JavaScript runtime prints a number or a date.

Absent values are `Option` values. Thrown errors are `Result` errors that carry the status code and
message the code gives them.

## Model

Source paths are relative to the repository root.

| member | source | states |
|---|---|---|
| Tables.PrivilegeName | utils/db-init.js:30-35 | exactly the ids 1 to 4 have a privilege name |
| Tables.PrivilegeId | utils/db-init.js:30-35 | the id found for a name is the one and only id whose privilege name it is |
| Tables.Insert | models/lesson.model.js:6-11 | the new row gets the counter's value, which was not in use; the table is the old one plus that row |
| Tables.Put | controllers/syllabus.controller.js:128-141 | an explicit-id write sets exactly that row; the counter never moves back |
| Tables.Update | controllers/syllabus.controller.js:111 | rewriting a stored row keeps the same ids and the same counter |
| Tables.Remove | controllers/message.controller.js:64-68 | exactly the rows with the given ids are removed; every other row and the counter stay |
| Tables.All | controllers/subscription.controller.js:23 | every stored row, each with its own id, once each, in ascending id order |
| Tables.Filter | controllers/subscription.controller.js:24 | keeps exactly the elements satisfying the predicate, and no others |
| Tables.FilterKeepsAscending | controllers/subscription.controller.js:24 | filtering an ascending listing leaves it ascending |
| Tables.Select | controllers/user.controller.js:187 | the stored rows satisfying the condition, all of them, in ascending id order |
| Tables.First | controllers/user.controller.js:18-30 | None exactly when no row matches; otherwise a stored matching row with the smallest matching id |
| Tables.Get | controllers/syllabus.controller.js:101-103 | Some exactly for a stored id, and then that id's row |
| Tables.FirstAfterUpdate | controllers/syllabus.controller.js:175-187 | rewriting the first match with a row that still matches keeps it the first match |
| Tables.FirstAfterInsert | controllers/syllabus.controller.js:175-187 | a matching row inserted when nothing matched becomes the first match |
| Text.TrimStart | middleware/validate.js:10 | the result does not start with white space, and only white space was dropped from the front |
| Text.TrimEnd | middleware/validate.js:10 | the result does not end with white space, and only white space was dropped from the end |
| Text.TrimIsTrimmed | utils/db.js:28-29 | a trimmed string has no white space at either end and is never longer |
| Text.TrimIdempotent | utils/db.js:28-29 | trimming twice is trimming once |
| Text.TrimEmptyIffAllSpace | utils/db.js:28-29 | a string trims to "" exactly when it is all white space |
| Text.Lower | controllers/user.controller.js:182 | same length, and each character is lower-cased in place |
| Text.LowerIdempotent | controllers/user.controller.js:182 | lower-casing twice is lower-casing once |
| Text.Split | models/index.js:16-18 | at least one piece, and no piece contains the separator |
| Text.JoinSplit | models/index.js:16-18 | joining the pieces with the separator gives back the string |
| Text.DashForSpace | controllers/report.controller.js:107 | same length; every space becomes '-' and every other character stays |
| Text.NatToString | controllers/report.controller.js:93 | a non-empty string of decimal digits |
| Text.NatToStringValue | controllers/report.controller.js:93 | reading the digits back gives the number |
| Text.LikeAnywhereLiteral | controllers/user.controller.js:182-183 | a search without `%`, `_` or `\` matches exactly the names that contain it, ignoring case |
| Text.PercentMatchesAll | controllers/entity.controller.js:96 | a search for `%` matches every value, since the search text is put into the pattern unescaped |
| Text.UnderscoreMatchesNonEmpty | controllers/entity.controller.js:96 | a search for `_` matches exactly the non-empty values |
| StringUtils.CapitalizeFirstLetter | utils/stringUtils.js:8-11 | '' stays ''; same length; an ASCII lower-case first letter is upper-cased, any other first character is kept, and the rest are unchanged |
| StringUtils.UpperCharIdempotent | utils/stringUtils.js:10 | upper-casing a character twice is upper-casing it once |
| StringUtils.CapitalizeIdempotent | utils/stringUtils.js:10 | capitalising twice is capitalising once |
| Registry.BaseName | models/index.js:14-15 | the base name followed by the suffix is the file name |
| Registry.CapitalizeAll | models/index.js:17 | each piece is capitalised on its first letter, and the number of pieces is kept |
| Registry.CamelOfSplit | models/index.js:16-18 | the split, capitalise-later-pieces and join pipeline equals the one-pass reading of the name |
| Registry.KeyIsCamel | models/index.js:14-18 | the key of a name is its camel-case reading |
| Registry.KeyWithoutDash | models/index.js:14-18 | a name without '-' is its own key |
| Registry.CamelHasNoDash | models/index.js:14-18 | a key has no '-' and is never longer than the name |
| Registry.TwoWordKey | models/index.js:14-18 | `a-b` becomes `a` followed by `b` capitalised |
| Registry.UserLessonKey | models/index.js:14-18 | `user-lesson` becomes `userLesson` |
| Registry.FileKeySpec | models/index.js:13-18 | a file has a key exactly when its name ends in the suffix, and the key is the camel-case base name |
| Registry.RegisteredKeys | models/index.js:12-22 | a key is registered exactly when some file with the suffix derives it |
| Registry.DerivedIsRegistered | models/index.js:20 | every derived key is registered |
| Registry.RegisteredIsDerived | models/index.js:20 | every registered key is derived by some file |
| Registry.LastWinsFor | models/index.js:20 | under a key sits the last file that derives it |
| Registry.RegisteredLastWins | models/index.js:20 | under each key sits the last file deriving it; later files overwrite earlier ones |
| Registry.KeysAtMostMatching | models/index.js:12-22 | there are never more keys than files with the suffix |
| Registry.Register | models/index.js:12-22 | the directory loop builds exactly the registry the specification function describes |
| Registry.AuthRouteKey | routes/index.js:13-18 | `auth.route.js` registers under `auth` |
| Registry.PublicRouteSkipped | routes/index.js:13 | `public.js` lacks `.route.js` and gets no key |
| Registry.RouteDirectory | routes/index.js:12-22 | the routes directory registers only `auth` |
| DbHook.Clean | utils/db.js:27-30 | a string of a textual attribute becomes its trimmed form, or null when blank; every other value is unchanged |
| DbHook.CleanIdempotent | utils/db.js:27-30 | cleaning twice is cleaning once |
| DbHook.SanitizedIsTrimmed | utils/db.js:27-30 | after the hook no textual attribute holds a blank or untrimmed string |
| DbHook.Sanitized | utils/db.js:17-33 | an instance without attribute definitions is left untouched; otherwise each value is cleaned by its attribute's type |
| DbHook.SanitizedIdempotent | utils/db.js:20-32 | running the hook twice gives what running it once gives |
| DbHook.AllCleaned | utils/db.js:22-32 | cleaning the attributes one at a time, all of them, gives the sanitized values |
| DbHook.BeforeValidate | utils/db.js:17-33 | the in-place loop leaves the instance's values equal to the sanitized values |
| Validate.EmptyStringToNull | middleware/validate.js:10 | null exactly for a blank string, otherwise the trimmed string |
| Validate.EmptyStringToNullIdempotent | middleware/validate.js:10 | applying it to its own result changes nothing |
| Validate.AgreesWithHook | middleware/validate.js:10 | the middleware's conversion and the database hook agree on every string |
| Validate.ValidateRequest | middleware/validate.js:14-23 | `next` is called exactly once; `errors` is [] with no errors and the validation result otherwise |
| Tx.Store.WithTransaction | utils/tx.js:9-19 | begin, then the callback; commit only after it succeeds, rollback on a callback or commit error, never both; the first error is rethrown unless the rollback itself fails; the state is committed or restored |
| Schemas.Stored | utils/db.js:27-30 | None exactly for an absent or blank value, otherwise the trimmed value |
| Schemas.RequiredText | models/lesson.model.js:12-22 | no message exactly for a present non-empty value; the null message for absent, the length message for "" |
| Schemas.LessonErrors | models/lesson.model.js:12-54 | no messages exactly when all four fields are present and non-empty; each missing field contributes its own message |
| Schemas.LessonAcceptedIffNonBlank | models/lesson.model.js:12-54 | a trimmed lesson passes exactly when none of its four fields is blank |
| Schemas.SyllabusErrors | models/syllabus.model.js:11-31 | no messages exactly when the title is non-empty and the version is present and at least 0.1; each failure has its own message |
| Schemas.EntityErrors | models/entity.model.js:11-22 | no messages exactly for a present non-empty name; otherwise the one name message |
| Schemas.EntityAcceptedIffNonBlank | models/entity.model.js:11-22 | a name is accepted exactly when it is not blank, and is stored trimmed |
| Schemas.UserNameErrors | models/user.model.js:11-22 | no messages exactly when first name, last name and email are all non-blank; each blank one, nulled by the trim hook, contributes its own message |
| Schemas.DisplayName | models/syllabus.model.js:33-38 | the title, then " - Version ", then the version text, with the lengths adding up |
| Schemas.DisplayNameInjective | models/syllabus.model.js:33-38 | with equal-length titles, equal display names mean equal titles and versions |
| Schemas.DisplayNameSeparatesVersions | models/syllabus.model.js:33-38 | for one title, different versions give different display names |
| Progress.ProgressRow | controllers/user.controller.js:294-308 | None exactly when the student has no row on the lesson; otherwise a stored row of that pair |
| Progress.JoinProgress | controllers/user.controller.js:306-310 | one result per lesson, in order, each paired with the student's progress row on it |
| Progress.SyllabusLessonsSpec | controllers/user.controller.js:294-303 | exactly the lessons of the syllabus, in ascending id order |
| Progress.JoinIsAscending | controllers/user.controller.js:302 | the joined lessons are in ascending id order |
| Progress.JoinIsSound | controllers/user.controller.js:294-310 | every joined entry is a lesson of the syllabus with that student's row |
| Progress.JoinIsComplete | controllers/user.controller.js:294-310 | every lesson of the syllabus is in the join |
| Progress.StudentLessonsSpec | controllers/user.controller.js:288-316 | succeeds exactly for a known user, and then is the exact join on that user's syllabus |
| Progress.WeightSumIsCounts | controllers/user.controller.js:327-331 | the weight sum is #completed + 0.5·#in-progress; any other or missing status adds 0 |
| Progress.WeightSumBounds | controllers/user.controller.js:327-331 | the weight sum lies between 0 and the number of lessons |
| Progress.PercentIsCounts | controllers/user.controller.js:327-331 | for a non-empty list, the percentage is the weight sum over the count, times 100 |
| Progress.PercentMonotone | controllers/user.controller.js:327-331 | moving lessons forward in status never lowers the percentage |
| Progress.PercentSpec | controllers/user.controller.js:323-337 | (#completed + 0.5·#in-progress) / #lessons · 100, 0 with no lessons, always in [0, 100] |
| Progress.StudentProgressSpec | controllers/user.controller.js:323-337 | a known student's progress is defined and in [0, 100]; 0 without lessons |
| Progress.ProgressListOfKnown | controllers/user.controller.js:323-337 | the progress of students drawn from the user table is always defined |
| Progress.MeanSpec | controllers/user.controller.js:97-103 | the average is undefined (NaN) exactly for no students, and otherwise in [0, 100] |
| Progress.ProgressOf | controllers/user.controller.js:98-102 | a computed list has one value per student, in order, or the first failure |
| Progress.ProgressOfSpec | controllers/user.controller.js:98-102 | each position of a computed list holds that student's value |
| Progress.ProgressListSpec | controllers/user.controller.js:98-102 | each position of a computed progress list holds that student's progress |
| Progress.ProgressOfStep | controllers/user.controller.js:98-102 | one more student extends the list by its value, or fails with its error |
| Progress.ProgressOfFails | controllers/user.controller.js:98-102 | once a prefix fails, the whole list fails with the same error |
| Progress.Annotated | controllers/user.controller.js:100 | each annotated row is its student with that student's percentage |
| Progress.AccumulateProgress | controllers/user.controller.js:97-103 | the loop writes each student's progress onto it and leaves the sum divided by the count: undefined for none |
| Report.CompleteCount | controllers/report.controller.js:54 | the count never exceeds the number of lessons |
| Report.CompleteCountIsCompleted | controllers/report.controller.js:54 | the count is the number of 'completed' lessons |
| Report.InProgressNotCounted | controllers/report.controller.js:54 | marking non-completed lessons in progress does not change the count |
| Report.StatusLabel | controllers/report.controller.js:60-70 | 'Complete' exactly for completed, 'In Progress' exactly for in-progress, 'Incomplete' for anything else |
| Report.NotesText | controllers/report.controller.js:82 | 'None ' exactly for missing or empty notes; otherwise the notes themselves |
| Report.LessonItems | controllers/report.controller.js:72-84 | exactly ten items: title, status, then objective, lesson, criteria and notes, each heading followed by its text |
| Report.Flatten | controllers/report.controller.js:95 | ten items per lesson |
| Report.FlattenBlock | controllers/report.controller.js:56-96 | lesson i's items sit at positions 10i to 10i + 9 |
| Report.Content | controllers/report.controller.js:88-96 | 3 + 10·n items: the heading, the progress line, the date, then each lesson's block in place |
| Report.ProgressLineNumbers | controllers/report.controller.js:93 | the progress line reads back as k and n, with k ≤ n |
| Report.FileName | controllers/report.controller.js:107 | the full name with dashes for spaces, '-', the title, '-progress-report.pdf'; no space in the name part |
| Report.PrintLessons | controllers/report.controller.js:49-113 | succeeds exactly for a known user with a stored syllabus and a defined full name; the document is then exactly the heading, progress line, date and lesson blocks of `Content`, and the file name is `FileName` of the full name and title |
| UserController.FindUser | controllers/user.controller.js:17-31 | the user with that id, or null exactly for an unknown id |
| UserController.PrivilegeStep | controllers/user.controller.js:157-161 | a truthy privilege name becomes its id, and the name key goes |
| UserController.IncludeStep | controllers/user.controller.js:163-178 | the truthy include flags are removed; nothing else changes |
| UserController.SearchStep | controllers/user.controller.js:180-186 | a truthy search becomes the lower-cased name condition; the search key goes in every case |
| UserController.PreparedSpec | controllers/user.controller.js:152-186 | the rewritten `where` keeps the caller's columns and drops every helper key |
| UserController.FindAll | controllers/user.controller.js:187 | an unknown column fails the query; otherwise exactly the matching rows, in id order |
| UserController.GetUsers | controllers/user.controller.js:152-192 | the in-place rewrite, then the query; the result is the query on the prepared `where` |
| UserController.GetUsersSearch | controllers/user.controller.js:180-185 | with a search, every returned user has a first or last name that matches `LIKE '%search%'`, ignoring case |
| UserController.GetUsersPrivilege | controllers/user.controller.js:157-161 | with a privilege name, every returned user holds that privilege |
| UserController.GetUsersComplete | controllers/user.controller.js:152-192 | every user meeting every condition is returned |
| UserController.PrivilegeFor | controllers/user.controller.js:245-247 | admin → 2 and cfi → 3 in any case, anything else → 4 |
| UserController.PrivilegeForCaseInsensitive | controllers/user.controller.js:245-247 | the mapping ignores case and never yields the global privilege |
| UserController.GoldSeal | controllers/user.controller.js:254 | true exactly for the string 'true' |
| UserController.CreatedRatings | controllers/user.controller.js:263 | a single rating gives that one, a list gives its ids, none gives none |
| UserController.UpdatedRatings | controllers/user.controller.js:411-416 | only a list sets ratings, to exactly that list; anything else leaves none |
| UserController.RatingsDisagreeOnSingle | controllers/user.controller.js:411-416 | create and update agree except on a single rating, which update drops |
| UserController.NewUser | controllers/user.controller.js:242-262 | the inserted row carries the form's names and email trimmed as the hook stores them, its other fields, the mapped privilege, no password and no deactivation date |
| UserController.CreateUser | controllers/user.controller.js:237-281 | 422 on failed validation and a crash for a missing type, both with no write; otherwise exactly one row is inserted |
| UserController.EditedUser | controllers/user.controller.js:396-408 | the editable columns and ratings come from the form, names and email trimmed as the hook stores them; id, entity, password and deactivation date stay |
| UserController.EditedUserIdempotent | controllers/user.controller.js:396-408 | editing twice with the same form is editing once |
| UserController.UpdateUser | controllers/user.controller.js:393-431 | an unknown id crashes on `null.update` with no write; a blank name or email is refused by the user model's validation with its messages and no write; otherwise only that user's row changes, to the edited row |
| UserController.Deactivated | controllers/user.controller.js:344-346 | the user becomes inactive, deactivated as of today |
| UserController.Reactivated | controllers/user.controller.js:358 | the user becomes active again |
| UserController.ReactivateUndoesDeactivate | controllers/user.controller.js:340-363 | both change only the deactivation date, and reactivating undoes deactivating an active user |
| UserController.SetActive | controllers/user.controller.js:340-363 | an unknown id crashes with no write; otherwise only that user's date moves, and its entity id is returned |
| Dashboard.GetCfiDashboard | controllers/user.controller.js:76-120 | the method's result and annotations are the instructor view; the user table is untouched |
| Dashboard.CfiStudentWherePrepared | controllers/user.controller.js:93 | the rewritten `where` holds the instructor, privilege 4 and the lower-cased search |
| Dashboard.CfiStudentWherePrivilege | controllers/user.controller.js:93 | the name "student" becomes privilege id 4 |
| Dashboard.CfiStudentWhereIncludes | controllers/user.controller.js:93 | both include flags are dropped |
| Dashboard.AssignedMatch | controllers/user.controller.js:93 | a row matches exactly when it is this instructor's student with a matching name |
| Dashboard.AssignedListSpec | controllers/user.controller.js:93 | the list is exactly the instructor's students with matching names, of any entity |
| Dashboard.CfiViewRows | controllers/user.controller.js:93 | the rendered students are the query's rows, in order |
| Dashboard.CfiViewFails | controllers/user.controller.js:78-85 | 404 for a falsy id, the null dereference for an unknown user, 404 for a missing entity, and no other failure |
| Dashboard.CfiViewProfile | controllers/user.controller.js:85-94 | the page shows the instructor's own record and entity |
| Dashboard.CfiViewStudents | controllers/user.controller.js:93-102 | the page lists exactly the instructor's students whose names match |
| Dashboard.CfiViewProgress | controllers/user.controller.js:96-103 | each student carries its own progress; the overall value is their mean, NaN for none, else in [0, 100] |
| Dashboard.StudentView | controllers/user.controller.js:123-140 | a known student gets their record, joined lessons and percentage; an unknown id fails |
| Dashboard.GetDashboard | controllers/user.controller.js:34-73 | the result is the dispatch view for the session |
| Dashboard.DashboardDispatch | controllers/user.controller.js:43-68 | 404 for a missing entity, 403 for an unknown privilege; global and admin succeed; a student succeeds exactly when known |
| Dashboard.DashboardPageKind | controllers/user.controller.js:37-69 | the page carries the session's entity and the kind of the session's privilege |
| Dashboard.AdminSeesOwnEntity | controllers/user.controller.js:56-58 | an admin sees the admin dashboard of the session's own entity |
| Dashboard.CfiSeesOwnStudents | controllers/user.controller.js:59-61 | an instructor sees only students assigned to them |
| Dashboard.GlobalSeesEverything | controllers/user.controller.js:44-55 | the global page lists every matching entity and every unresolved message |
| EntityController.AdminErrors | models/user.model.js:11-26 | no errors exactly when the first name, last name and email are present and non-empty once trimmed |
| EntityController.CreateFailure | controllers/entity.controller.js:51-54 | every failure becomes status 500 with the 'Failed to create new entity: ' prefix |
| EntityController.CreatedSpec | controllers/entity.controller.js:22-56 | a blank name creates nothing; otherwise the entity takes the next id, and an admin (privilege 2) follows exactly for a truthy email that passes |
| EntityController.CreateNewEntity | controllers/entity.controller.js:22-56 | the new tables and result are exactly what the specification function gives |
| EntityController.FallbackNameAccepted | controllers/entity.controller.js:28 | with a non-blank first name, the orgName-or-"first last" name always passes |
| EntityController.NewEntityHasOneAdmin | controllers/entity.controller.js:36-46 | a new entity has exactly one admin, and every user points at a stored entity |
| EntityController.GetEntity | controllers/entity.controller.js:63-80 | the stored entity, or 404 'Entity not found' exactly for an unknown id |
| EntityController.CreatedEntityFound | controllers/entity.controller.js:63-80 | a created entity is found under its new id, as stored |
| EntityController.GetAllEntitiesSpec | controllers/entity.controller.js:90-143 | ordered by case-insensitive name, each matching entity once, with this listing's counts |
| EntityController.NullOnlyCount | controllers/entity.controller.js:111-129 | a count is the number of the entity's users with those privileges and a null date; 0 without users |
| EntityController.Listed | controllers/entity.controller.js:166 | one row per listed user, keeping its id and record |
| EntityController.AnnotateStudents | controllers/entity.controller.js:165-171 | each student carries its progress; the overall value is their mean |
| EntityController.ListedProgress | controllers/entity.controller.js:165-171 | for users from the table, the progress is defined, in [0, 100], with a mean |
| EntityController.AdminViewProgress | controllers/entity.controller.js:165-171 | each student carries its own progress; the mean is NaN for none, else in [0, 100] |
| EntityController.EntityDashboard | controllers/entity.controller.js:147-188 | the method's result and annotations are the admin view |
| EntityController.AdminViewFails | controllers/entity.controller.js:147-188 | the only failure is 404 for an unknown entity |
| EntityController.CfiWherePrepared | controllers/entity.controller.js:159 | the instructor `where` holds the entity, privilege 3 and the lower-cased search |
| EntityController.StudentWherePrepared | controllers/entity.controller.js:160 | the student `where` holds the entity, privilege 4 and the lower-cased search |
| EntityController.StudentWherePrivilege | controllers/entity.controller.js:160 | "student" becomes privilege id 4 |
| EntityController.StudentWhereIncludes | controllers/entity.controller.js:160 | both include flags are dropped |
| EntityController.StudentListSpec | controllers/entity.controller.js:160 | the student list is exactly the entity's students whose names match |
| EntityController.DashboardMatch | controllers/entity.controller.js:159-160 | a row matches exactly when it has that entity, privilege and a matching name |
| EntityController.DashboardListSpec | controllers/entity.controller.js:159-160 | a list is exactly the matching users of that entity and privilege |
| EntityController.AdminViewCfis | controllers/entity.controller.js:157-159 | the page shows the entity and only its matching instructors |
| EntityController.AnnotatedListed | controllers/entity.controller.js:166-168 | the rows keep each student's id and record, in order |
| EntityController.AdminViewRows | controllers/entity.controller.js:160-168 | the rendered students are the query's rows, in order |
| EntityController.AdminViewStudents | controllers/entity.controller.js:160-168 | the page lists exactly the entity's matching students |
| EntityController.ResubscribedSpec | controllers/entity.controller.js:197-200 | only that entity's subscription changes; applying it twice is applying it once |
| EntityController.UpdateSubscription | controllers/entity.controller.js:191-206 | 422 with no write on failed validation; otherwise only that entity's subscription is set |
| Directory.SearchFilter | controllers/user.controller.js:180-185 | a truthy search gives its lower-cased form; otherwise no condition |
| Directory.CountMonotone | controllers/entity.js:84 | a looser active rule never counts fewer users |
| Directory.CountWithoutUsers | controllers/entity.controller.js:111-128 | an entity without users counts 0 under any rule |
| Directory.NameLeTotal | controllers/entity.controller.js:139 | any two names are ordered one way or the other |
| Directory.NameLeTransitive | controllers/entity.controller.js:139 | the name order is transitive |
| Directory.NameLeIgnoresCase | controllers/entity.controller.js:139 | names that differ only in letter case tie |
| Directory.InsertByName | controllers/entity.controller.js:139 | inserting into a listing sorted by case-insensitive name keeps it sorted and adds exactly that row |
| Directory.SortByName | controllers/entity.controller.js:139 | sorted by case-insensitive name and a permutation of the input |
| Directory.ListingSound | controllers/entity.controller.js:90-143 | every listed row is a matching entity with its own counts |
| Directory.ListingComplete | controllers/entity.controller.js:90-143 | every matching entity is listed |
| Directory.ListingSpec | controllers/entity.controller.js:90-143 | sorted by case-insensitive name, exactly one row per matching entity, with its counts |
| EntityLineage.CreateNewEntity | controllers/entity.js:28-52 | the entity and its admin (privilege 2) are inserted together; errors are not wrapped; a rejected admin leaves the entity |
| EntityLineage.AdminRuleDiffers | controllers/entity.js:42-48 | without an email the controller creates a bare entity, while this lineage rejects the admin |
| EntityLineage.LineageCountsAtLeast | controllers/entity.js:79-96 | both lineages list the same entities in order; this one never counts fewer, and the same when no user has a date |
| EntityLineage.FutureDateCountsHere | controllers/entity.js:84 | a user deactivated for a future day counts here but not in the controller |
| EntityLineage.SingleEntityListing | controllers/entity.js:69-71 | an id filter lists that entity alone, or nothing for an unknown id |
| EntityLineage.GetAllCfis | controllers/entity.js:121-139 | exactly the entity's admins and instructors with matching names, in id order, with no active rule |
| EntityLineage.GetAllStudents | controllers/entity.js:149-169 | exactly the entity's students with matching names, narrowed to a truthy instructor id |
| EntityLineage.TotalsCover | controllers/entity.js:214-218 | each listed entity's counts are within the totals; an empty list totals 0 |
| EntityLineage.SumCounts | controllers/entity.js:214-218 | the totals sum the student and instructor counts of the listed entities |
| EntityLineage.GetDashboardPage | controllers/entity.js:178-231 | the route's entity or the viewer's own; each list filled only for the privileges that see it, the rest empty; the totals |
| EntityLineage.CurrentEntitySpec | controllers/entity.js:210-211 | the dashboard's entity is found exactly when it exists, with its counts |
| EntityLineage.GlobalListUnfiltered | controllers/entity.js:191-193 | the global list holds every entity, whatever the search |
| MessageController.BlankOrgNameAllowed | models/message.model.js:18-24 | a blank organisation name is judged as an absent one, since it is stored as null |
| MessageController.NewMessage | controllers/message.controller.js:15 | a new message is unresolved |
| MessageController.StoredForm | utils/db.js:22-31 | the ENUM `type` stays as posted; the STRING and TEXT fields are null when blank and trimmed otherwise |
| MessageController.OnlySalesAccepted | models/message.model.js:11-17 | as the ORM runs `isIn: ['sales', 'general']` (a substring test on 'sales'), only `sales` passes both it and the ENUM column; `general` fails it |
| MessageController.GeneralMessageRefused | models/message.model.js:11-17 | a `general` message is refused whatever its other fields |
| MessageController.IntendedAcceptsBothTypes | models/message.model.js:11-17 | the intended list check accepts exactly the forms of either type that would pass as `sales`, so it differs only by also accepting `general` |
| MessageController.InsertMessage | controllers/message.controller.js:15 | a form failing the model's checks (the type check as the ORM runs it, the ENUM column, the field rules) inserts nothing; otherwise exactly one new row |
| MessageController.CreateMessage | controllers/message.controller.js:12-26 | 422 on failed validation and a model error on a rejected form, judged with the posted (untrimmed) type, neither inserting; otherwise one unresolved message |
| MessageController.GetAllMessages | controllers/message.controller.js:32-43 | exactly the unresolved messages in id order; a query error is rethrown with 'Could not fetch messages: ' |
| MessageController.Resolved | controllers/message.controller.js:80-86 | only that message's flag is set; an unknown id changes nothing |
| MessageController.ResolveIdempotent | controllers/message.controller.js:80-86 | resolving twice is resolving once |
| MessageController.ResolvedListedBefore | controllers/message.controller.js:80-86 | what is listed after resolving was listed before and is not the resolved message |
| MessageController.ResolvedKeepsOthers | controllers/message.controller.js:80-86 | every other message listed before is still listed |
| MessageController.ResolvedLeavesListing | controllers/message.controller.js:77-91 | the listing loses exactly the resolved message |
| MessageController.ResolveMessage | controllers/message.controller.js:77-91 | 422 with no write on failed validation; otherwise the table becomes the resolved table |
| MessageController.DeleteMessage | controllers/message.controller.js:61-74 | 422 with no write on failed validation; otherwise exactly the message with that id is removed |
| SubscriptionController.GetSubscriptions | controllers/subscription.controller.js:12-30 | the query error is rethrown with status 500; otherwise the listing |
| SubscriptionController.ListedInOrder | controllers/subscription.controller.js:23-24 | the listing keeps the table's id order |
| SubscriptionController.ListedAreSelectable | controllers/subscription.controller.js:24 | every listed subscription is stored, is not `global`, and is shown as stored |
| SubscriptionController.SelectableAreListed | controllers/subscription.controller.js:24 | every stored subscription other than `global` is listed |
| SubscriptionController.GetSubscriptionsSpec | controllers/subscription.controller.js:12-30 | leaves out exactly `global`, keeps the order, carries features only when asked (false by default) |
| SyllabusController.Record | controllers/syllabus.controller.js:14-17 | a syllabus with exactly its lessons, in ascending id order |
| SyllabusController.GetSyllabiSound | controllers/syllabus.controller.js:6-31 | each record is a selected stored syllabus with exactly its lessons |
| SyllabusController.GetSyllabiComplete | controllers/syllabus.controller.js:21-26 | every selected stored syllabus has a record |
| SyllabusController.CreatePageEntity | controllers/syllabus.controller.js:35-39 | 422 exactly for a missing or empty entity id |
| SyllabusController.UpdatePageSpec | controllers/syllabus.controller.js:79-84 | the stored syllabus with its lessons, and 404 exactly for an unknown id |
| SyllabusController.CreateSyllabus | controllers/syllabus.controller.js:49-74 | 422 with no write on failed validation; otherwise a new syllabus with copies of the lessons, and nothing stored before moves |
| SyllabusController.UpdateSyllabus | controllers/syllabus.controller.js:94-148 | failed validation (422) and an unknown id (a null-dereference crash) write nothing; a higher version creates a new syllabus with its lessons, and a failure there ends in the `next is not a function` crash; otherwise a valid header is rewritten in place and the lessons reconciled |
| SyllabusController.BumpLeavesStoredSyllabus | controllers/syllabus.controller.js:106-108 | a version bump leaves the stored syllabus and every stored lesson alone |
| SyllabusController.LessonInfo | controllers/syllabus.controller.js:150-166 | an unknown lesson crashes; otherwise the lesson, with no progress row exactly when the user has none on it |
| SyllabusController.Revised | controllers/syllabus.controller.js:181-184 | the pair stays, and a status or notes the form leaves out keeps its value |
| SyllabusController.Started | controllers/syllabus.controller.js:186 | the new row carries the pair; without a status it takes the default, without notes it has none |
| SyllabusController.SavedOverRow | controllers/syllabus.controller.js:180-184 | the pair's existing row is revised in place |
| SyllabusController.SavedAsNewRow | controllers/syllabus.controller.js:185-187 | a pair without a row gets exactly one new row |
| SyllabusController.SavedProgressSpec | controllers/syllabus.controller.js:175-187 | at most one row per pair is kept, exactly one for the saved pair, and other pairs' rows stay; it fails only for a status outside the ENUM |
| SyllabusController.SavedProgressIdempotent | controllers/syllabus.controller.js:175-187 | saving the same form twice changes nothing more |
| SyllabusController.SavedRowIsFirst | controllers/syllabus.controller.js:175-187 | after a save, the saved row is the one a lookup of the pair finds |
| SyllabusController.SavedThenShown | controllers/syllabus.controller.js:175-187 | after a save, the lesson page shows the saved row |
| SyllabusController.SaveLessonInfo | controllers/syllabus.controller.js:168-194 | 422 with no write on failed validation; otherwise the table is the saved-progress table |
| SyllabusStore.NewSyllabus | controllers/syllabus.controller.js:60-61 | the header row carries the form's title, version, rating and the entity |
| SyllabusStore.CopyErrorsIffBlank | models/lesson.model.js:12-54 | a copied lesson is rejected exactly when one of its four fields is blank |
| SyllabusStore.Copies | controllers/syllabus.controller.js:53-58 | one copy per lesson, each under the new syllabus |
| SyllabusStore.CopiesAt | controllers/syllabus.controller.js:53-58 | each copy holds the four content fields of the lesson at its position |
| SyllabusStore.InsertAllSpec | controllers/syllabus.controller.js:60-63 | the inserts take the next ids in turn and leave earlier rows alone |
| SyllabusStore.CreateWithLessons | controllers/syllabus.controller.js:60-63 | a rejected header writes nothing; each accepted copy is inserted; the call fails with the first rejected copy's messages |
| SyllabusStore.InsertCopies | controllers/syllabus.controller.js:60-63 | the accepted copies are inserted in order, and the first rejection's messages are returned |
| SyllabusStore.SaveCopies | controllers/syllabus.controller.js:60-63 | the loop inserts each accepted copy and records the first rejected position |
| SyllabusStore.CreatedLeavesOldRows | controllers/syllabus.controller.js:53-63 | old rows stay, and the copies take fresh ids under the new syllabus |
| SyllabusStore.Destroyed | controllers/syllabus.controller.js:122-124 | exactly the rows with those ids in this syllabus are removed |
| SyllabusStore.DestroyedNothing | controllers/syllabus.controller.js:122 | destroying no ids changes nothing |
| SyllabusStore.UpsertOne | controllers/syllabus.controller.js:128-141 | without an id an insert here; with a stored id an update of the four columns; with an unused id an insert under it |
| SyllabusStore.SyllabusOfUpserted | controllers/syllabus.controller.js:128-141 | a stored row keeps its syllabus; an added row belongs to this one |
| SyllabusStore.UpsertedKeys | controllers/syllabus.controller.js:127-141 | nothing is deleted; added rows have a resubmitted id or a fresh one, under this syllabus |
| SyllabusStore.UpsertedLeavesOthers | controllers/syllabus.controller.js:137-141 | a row whose id was not resubmitted keeps its content |
| SyllabusStore.KeptSyllabus | controllers/syllabus.controller.js:137-141 | no stored row moves to another syllabus |
| SyllabusStore.UpsertedLastWins | controllers/syllabus.controller.js:139-141 | a resubmitted id holds its last submission's content |
| SyllabusStore.LastSubmission | controllers/syllabus.controller.js:139-141 | the last row for an id decides its content |
| SyllabusStore.ReconciledUpdates | controllers/syllabus.controller.js:127-141 | a resubmitted lesson of this syllabus ends with its last content, still here |
| SyllabusStore.ReconciledSpec | controllers/syllabus.controller.js:117-141 | left-out lessons of this syllabus are gone; other syllabi's lessons stay unless resubmitted; added rows are here |
| SyllabusStore.EmptyListRemovesAll | controllers/syllabus.controller.js:117-127 | an empty list removes every lesson of the syllabus and nothing else |
| SyllabusStore.ReviseExisting | controllers/syllabus.controller.js:111-141 | title, version and ratingId are overwritten, the entity stays, and the lessons are reconciled |
| SyllabusStore.RevisedHeader | controllers/syllabus.controller.js:111 | the overwritten header is the row a create from the same form would insert |
| SyllabusStore.ReconcileLessons | controllers/syllabus.controller.js:121-142 | the destroy runs only when something was left out, the upsert only for a non-empty list |
| SyllabusLineage.Summaries | controllers/syllabus.js:17-51 | one summary per selected syllabus, in query order |
| SyllabusLineage.GetAllSyllabuses | controllers/syllabus.js:17-51 | the loop's result is exactly the summaries |
| SyllabusLineage.SummariesSound | controllers/syllabus.js:18-35 | only the entity's syllabi (only the asked-for one), once each, ascending; each counts exactly its lessons and carries them only when asked |
| SyllabusLineage.SummariesComplete | controllers/syllabus.js:18-35 | every selected syllabus of the entity is listed |
| SyllabusLineage.LessonCountIsLength | controllers/syllabus.js:28-47 | with lessons included, the count is the included list's length |
| SyllabusLineage.UpdatePageSpec | controllers/syllabus.js:66-75 | found exactly when the syllabus exists and belongs to the route's entity |
| SyllabusLineage.CreateSyllabus | controllers/syllabus.js:82-107 | created under the route's entity with copies; a failure shows the fixed message and keeps what was inserted |
| SyllabusLineage.UpdateSyllabus | controllers/syllabus.js:110-170 | an unknown id fails with no write; a higher version creates under the route's entity; otherwise header rewrite and reconcile |
| AuthController.FindByEmail | controllers/auth.controller.js:24 | the stored user with the smallest id whose email equals the given one ignoring case, or none exactly when no user has it |
| AuthController.FindByEmailIgnoresCase | controllers/auth.controller.js:79 | emails that differ only in letter case find the same user |
| AuthController.SessionOf | controllers/auth.controller.js:98-103 | fails exactly for an unknown privilege; otherwise an undefined full name, the user's id and entity, and a privilege name that maps back to the user's privilege id |
| AuthController.PostSignUp | controllers/auth.controller.js:19-58 | failed validation re-renders with its errors and a missing email crashes, neither writing; a taken email re-renders with the email error and writes nothing; otherwise the entity and admin are created and the session is set exactly when sign-in succeeds |
| AuthController.SignUpSignsInTheAdmin | controllers/auth.controller.js:35-44 | after sign-up the session is the new admin's, in the new entity; emails stay unique |
| AuthController.FoundAfterInsert | controllers/auth.controller.js:38 | a user inserted with a free email is the one the lookup finds |
| AuthController.InsertKeepsEmailsUnique | controllers/auth.controller.js:24-35 | inserting with a free email keeps emails unique |
| AuthController.EmailTakenSpec | controllers/auth.controller.js:24-32 | the email is taken exactly when some stored user has it, ignoring case; with unique emails that user is the one found |
| AuthController.AcceptedSignUpCreates | controllers/auth.controller.js:21-35 | an accepted body gives a non-blank entity name and admin fields the model accepts |
| AuthController.PostLogin | controllers/auth.controller.js:73-117 | the decision, and the session set exactly when it logs in |
| AuthController.LoginSucceeds | controllers/auth.controller.js:98-103 | logs in exactly when validation passed, the email is known, the hash verifies and the privilege is known; the session describes that user |
| AuthController.LoginDenialsAlike | controllers/auth.controller.js:80-96 | an unknown email and a wrong password both give 403 'Invalid credentials', indistinguishably |
| AuthController.SignUpThenLogin | controllers/auth.controller.js:88-96 | sign-up stores the password unhashed, so logging in right after sign-up with the same password is refused with 403 whenever that password does not look like a bcrypt hash |
| AuthController.HashedAdminUser | controllers/entity.controller.js:37-43 | the admin row sign-up stores, with the password replaced by its hash |
| AuthController.HashedSignUpThenLogin | controllers/auth.controller.js:88-103 | with the password hashed at sign-up, logging in right after sign-up gives the session sign-up gave |
| AuthController.Logout | controllers/auth.controller.js:61-66 | nobody is signed in afterwards |
| AuthRoutes.SignUpAccepted | routes/auth.route.js:20-36 | passes exactly when subscription is an integer, orgName is given on plan 3, a non-empty phone is mobile, names are non-blank, the email is valid and the trimmed password has ≥ 8 characters |
| AuthRoutes.SignUpMessages | routes/auth.route.js:20-36 | each of the seven rules' messages appears exactly when that rule fails; at most 7 messages |
| AuthRoutes.OrgNameOnlyForTierThree | routes/auth.route.js:22-30 | off plan 3, the organisation name changes nothing |
| AuthRoutes.AbsentOrgNameSkipped | routes/auth.route.js:22-23 | an absent organisation name is never reported |
| AuthRoutes.SanitizedSignUpStable | routes/auth.route.js:20-36 | validating the sanitized body gives the same result |
| AuthRoutes.AcceptedSignUpSanitized | routes/auth.route.js:20-36 | an accepted body reaches the controller trimmed and non-blank, with a password of at least 8 characters |
| AuthRoutes.LoginAccepted | routes/auth.route.js:43-46 | passes exactly for a valid email and a trimmed password of at least 8 characters; each message exactly when its rule fails |
| AuthRoutes.SignUpPasswordLogsIn | routes/auth.route.js:35-45 | a password that sign-up accepts passes the login check |

## Left out

- Page rendering, redirects, flash messages and `req.session.save` callbacks. Each handler returns
  the data it would render, or the error it would throw.
- bcrypt hashing and JWT signing: the password check is a parameter `verify`, and the hash of the
  corrected sign-up row a parameter `hash`.
- The express-validator checks `isInt`, `isMobilePhone` and `isEmail`, and JavaScript's
  string-to-number conversion: these are parameters.
- The PDF layout and rendering of the progress report. The document's content items and the file
  name are modelled.
- dayjs and "today": the date is a parameter. The date text and the version text of the report are
  parameters in the runtime's printed form.
- Collation: MySQL's case-insensitive collation is modelled as ASCII lower-casing in `LIKE`, in
  the email lookup and in `ORDER BY name`. Unicode case mapping, accent folding and the
  collation's weights for characters other than letters are not modelled.
- UserController.PrivilegeStep: the privilege lookup by name is an exact match, where the
  database compares under the case-insensitive collation; every caller passes one of the
  lower-case names, which gives the same row.
- Directory.SortByName: the order is code-point order after ASCII lower-casing, not the
  collation's own weights; the relative order of names that tie is not stated.
- Directory.InsertByName: the same name order as Directory.SortByName.
- Directory.ListingSpec: the same name order as Directory.SortByName.
- EntityController.GetAllEntitiesSpec: the same name order as Directory.SortByName.
- AuthController.FindByEmail: emails are compared with ASCII case folding only; the
  collation's accent folding is not modelled.
- AuthController.EmailTakenSpec: the same email comparison as AuthController.FindByEmail.
- SyllabusController.UpdateSyllabus: the bump path returns the promise of `createSyllabus`
  without awaiting it, so its failure rejects the handler's promise instead of reaching the error
  handler; the model gives that failure as the handler's result.
- Floating point: versions and percentages are exact `real` values. IEEE rounding is not modelled.
- Progress.AccumulateProgress: a zero student count gives `None`, standing for JavaScript's NaN.
  NaN's arithmetic is not modelled.
- ORM error texts: only the model-defined messages and the status codes are kept.
- Non-atomic nested creates are modelled with the order of inserts the ORM uses:
  - a rejected lesson does not undo the ones already saved;
  - a rejected admin in `controllers/entity.js` does not undo the entity.
- `Promise.all` fan-outs are modelled sequentially, with the first failure in list order. Their
  concurrency is not modelled.
- MySQL's ENUM strict mode is modelled as a refused status. Foreign keys are not enforced. Column
  type coercion is not modelled.
- `bulkCreate` runs neither validation nor the trimming hook, as the ORM's default does.
- Progress.ProgressRow: the contract states only that the row belongs to the pair. The definition
  takes the smallest id for "the first row the join returns"; MySQL gives no order without
  `ORDER BY`.
- The user's `fullName` is not declared by `models/user.model.js`, so it is undefined:
  - a session stores `None`;
  - Report.PrintLessons takes it as a parameter and fails on `None` as the `split` call does.
- UserController.CreateUser: `models/user.model.js` declares `passwrd` with `allowNull: false`
  and `createUser` sends no password, so with that schema every call would be refused by
  validation. The model does not apply the user model's `allowNull` checks here and inserts the
  user without a password; names and email are stored trimmed, and a blank one as "" where the
  hook would null it and validation refuse it.
- UserController.NewUser: a blank name or email is stored as "", for the same reason as
  UserController.CreateUser.
- MessageController.GetAllMessages: the `resolved` column is assumed, a boolean that defaults to
  false. `models/message.model.js` does not declare it and `utils/db-init.js` builds the schema
  from the models (`db.sync({ force: true })`), so as written the `where` on `resolved` fails on an
  unknown column (rethrown with the prefix) and the static `update` of `resolveMessage` drops the
  undeclared attribute.
- MessageController.Resolved: the same assumed `resolved` column as MessageController.GetAllMessages.
- MessageController.ResolveMessage: the same assumed `resolved` column as
  MessageController.GetAllMessages.
- MessageController.NewMessage: the same assumed `resolved` column, set to false on creation.
- StringUtils.CapitalizeFirstLetter: only an ASCII first letter is upper-cased. `toUpperCase`
  also maps other letters (é to É) and can lengthen the string (ß to SS), so the program's result
  is not always the same length.
- `models/user.model.js` lacks columns the controllers read and write (`hasGoldSeal`, `cfiId`,
  `syllabusId`, `inactiveDate`). The model assumes the columns the controllers use, and applies the
  user model's `allowNull` checks to the admin fields of sign-up and to the names and email of
  `updateUser`.
- Ids are positive integers. Route parameters arrive already converted to numbers. A form field
  that is not sent arrives as "".
- The `include` of ratings and of features is modelled as a flag carried with the result. The join
  itself is not modelled.
- The random quote (`controllers/quote.controller.js`, network), file-backed stores
  (`utils/fileUtils.js`, `models/subscription.js`) and `models/user.js`: these are not part of
  this model.
- `controllers/public.js` and `controllers/user.js` are not part of this model: rendering and thin
  ORM wrappers.
- `app.js`, `models/associations.js`, the seeding in `utils/db-init.js` (except the privilege ids)
  and the route files other than `routes/auth.route.js` and `routes/index.js` are not part of this
  model.
- The ORM schemas of user, privilege, rating, subscription, subscription-feature and user-lesson
  are not part of this model beyond the columns the controllers read.
- UserController.GetUsers: the state of the caller's `where` object after a failed query is not
  stated.
- SyllabusLineage.CreateSyllabus: the re-rendered create page is represented by its fixed message
  only.

## Findings

| source | as written | input that shows it | evidently intended | confidence | as-written member | corrected member |
|---|---|---|---|---|---|---|
| controllers/entity.controller.js:37-43 | the admin's `passwrd` is the posted password itself; `hashPassword` is never called, while login checks the stored value with `bcrypt.compare` | sign up with the password `password123`, then log in with the same email and password: 403 'Invalid credentials' | store `hashPassword(password)`, so that login right after sign-up signs the admin in | high, not executed | AuthController.SignUpThenLogin | AuthController.HashedSignUpThenLogin |
| models/message.model.js:14-16 | `validate: { isIn: ['sales', 'general'] }` passes the list's items as the validator's arguments, so the check becomes `'sales'.indexOf(type) >= 0`, a substring test on the first item | post a contact message of type `general`: refused by validation, although the ENUM column allows it | `isIn: [['sales', 'general']]`, membership in the list | medium, not executed | MessageController.GeneralMessageRefused | MessageController.IntendedAcceptsBothTypes |

The sign-up handlers (`EntityController.CreateNewEntity`, `AuthController.PostSignUp`) keep the
row as the code writes it; `AuthController.HashedAdminUser` is the corrected row, and
`AuthController.HashedSignUpThenLogin` proves that login after sign-up succeeds with it.

The message handlers (`MessageController.InsertMessage`, `MessageController.CreateMessage`) keep
the type check as the ORM runs it; `MessageController.MessageValidIntended` is the corrected check,
and `MessageController.IntendedAcceptsBothTypes` proves it accepts both types and agrees with the
code on everything else.
