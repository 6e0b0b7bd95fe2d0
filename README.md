# Gamified education: the admin and course bookkeeping rules in Dafny

This project models the rules of a Django course site that can be stated exactly. It covers the
admin actions and forms in `course/admin.py`, and the student pages in `course/views.py`.

- **Invitation** (`invitation.dfy`). The "send invitation" action checks every selected user in
  selection order before any email leaves. A user who already has a usable password, or who has
  no email, stops the action with that user's error. Otherwise every user's email is handed to the
  password-reset form and the number sent is reported. `UserAdmin.save_model` gives an unusable
  password to a user added without one.
- **Course-class duplication** (`duplication.dfy`, `decimal.dfy`). The copy is named
  `"<code> (n)"`, where `n` is the least number from 2 whose code is not taken. The class's
  instructors, tasks, widgets, posts and badges are then copied in id order and repointed to the
  new class. Each badge's criteria are copied and repointed to the badge's copy. The database is
  a value: each table is a sequence of rows in id order, and a saved row gets the next id.
- **Inline-formset backfill** (`backfill.dfy`). The grade, enrollment-grade and achievement
  formsets each hold a cached list of expected ids. Every bound form strikes its id from a copy of
  the list, and the blank forms receive the ids that are left, in order. The grade and achievement
  formsets only strike an id that is still in the list. The enrollment-grade formset strikes
  without that check, and so raises on a row that is not in the list.
- **Adding a student** (`students.dfy`). One valid submission creates the user, the student and
  one enrollment per chosen course class.
- **Progress report** (`progress.dfy`). For each task: the points it is worth and the points
  earned. For each assignment: the required points, the earned points and the percentage.
- **Class ranking** (`ranking.dfy`). Totals per student, rows by total descending and then by
  name, shared ranks for equal totals, and at most `ranking_size` rows.
- **Course list** (`courses.dfy`). A student with exactly one enrollment is redirected to that
  class's page.

`wrappers.dfy` holds the `Option` and `Result` types, and module `Seqs` with the `NoDuplicates`
predicate that the backfill and ranking modules share.

The operations that work step by step are methods with loops, each proved against a
specification function. Examples are the formset `__init__`, the copy-number search, the table
copies, the invitation loop and the report builders. The formset with its id cache is a class.
The rest are functions, and lemmas state what the code promises about them.

The ranking's annotation is named `dense_rank` (course/views.py:54-57), but the view calls `Rank`,
and the imported `DenseRank` (course/views.py:7) is unused. So equal totals share a rank and the
next rank skips the shared places: totals 80, 80 and 60 rank 1, 1 and 3
(`Ranking.CompetitionRanking`). The model follows `Rank`.

## Model

| member | source | states |
|---|---|---|
| Invitation.Offence | course/admin.py:22-34 | the usable-password test comes before the empty-email test; each gives its own error, and a user who passes both raises none |
| Invitation.FirstOffence | course/admin.py:22-34 | no error exactly when every user passes; otherwise the error is that of the first offending user in selection order |
| Invitation.InviteUsers | course/admin.py:21-53 | an offending user makes the message the first offender's error and sends no email to anyone; otherwise every user's email is requested, in order, and the count equals the number of users; the message is an error exactly when some user offends |
| Invitation.SaveModel | course/admin.py:78-82 | a user being added with an empty first password, or with an unusable password, is saved with an unusable password; a change, or an add with a password, saves the user as given; username and email are kept |
| Invitation.AddedWithoutPasswordIsInvitable | course/admin.py:78-80 | a user added through `UserAdmin`'s add form without a password, and with an email, passes the invitation checks |
| Decimal.Format | course/admin.py:119 | `%d` of a count is a non-empty string of digits without leading zeros: it starts with `0` only for 0, which is written `"0"` |
| Decimal.ParseFormat | course/admin.py:119 | reading the digits back gives the number |
| Decimal.FormatInjective | course/admin.py:119 | different numbers print differently |
| Duplication.CopyCodeInjective | course/admin.py:119 | different copy numbers give different codes `"<code> (n)"` |
| Duplication.CopyCode | course/admin.py:119 | the code of copy `n` is the original code, then `" ("`, the decimal digits of `n`, and `")"` |
| Duplication.TakenShrinks | course/admin.py:118-124 | each taken candidate code shrinks the finite set of taken codes still ahead, so the search ends |
| Duplication.FreeCopyNumber | course/admin.py:117-124 | the number found is at least 2, its code is not taken, and every number from 2 below it is taken |
| Duplication.NextId | course/admin.py:131-146 | a new id is at least 1 and, in a table in id order, above every existing id |
| Duplication.NextClassId | course/admin.py:125 | the new class's id is at least 1 and, in a class table in id order, above every existing class id |
| Duplication.Owned | course/admin.py:130 | the rows of a class keep their order, and each of them belongs to that class |
| Duplication.SaveCopies | course/admin.py:131-135 | the table after saving the copies is the old table followed by one copy per row, in order, with fresh consecutive ids, the new owner and the row's columns |
| Duplication.CopyTable | course/admin.py:128-135 | copying a table appends, in id order, one repointed copy of each row of the original class |
| Duplication.CopyOwned | course/admin.py:128-135 | copying a class's rows keeps the existing rows as a prefix and adds one row per row of the original class |
| Duplication.CopyOwnedToNew | course/admin.py:128-135 | the new class's rows are exactly the copies of the original class's rows |
| Duplication.CopyOwnedKeepsOriginal | course/admin.py:128-135 | the original class keeps exactly its own rows |
| Duplication.CopyOwnedFacts | course/admin.py:128-135 | the existing rows are untouched, ids stay in order, and the new class's rows carry the original rows' columns |
| Duplication.CopyBadges | course/admin.py:138-149 | the badge loop produces the badge and criteria tables the badge copy function describes |
| Duplication.CopyBadgesFrom | course/admin.py:138-149 | the badge loop adds one badge per badge still to copy and never drops a criterion |
| Duplication.CopyBadgesFromShape | course/admin.py:138-149 | the existing badge and criteria rows are kept as a prefix |
| Duplication.CopyBadgesFromWellFormed | course/admin.py:138-149 | both tables stay in id order, and every criterion points to an existing badge |
| Duplication.CopyBadgesFromKeeps | course/admin.py:138-149 | a badge that existed before the loop keeps exactly its criteria |
| Duplication.CopyBadgesFromCopy | course/admin.py:138-149 | the k-th badge copy points to the new class, keeps the badge's columns, and has criteria carrying the columns of the original badge's criteria, in order; the criteria are read before the badge gets its new id |
| Duplication.CopyBadgesCarryCriteria | course/admin.py:138-149 | every badge of the original class has a copy in the new class holding copies of exactly its criteria, and every existing badge keeps its criteria |
| Duplication.DuplicateCourseClass | course/admin.py:112-149 | one class is duplicated with the least free copy number, giving the tables that duplication describes |
| Duplication.Duplicated | course/admin.py:112-149 | duplicating appends one class, with the next class id, the copy code with the given number and the original's other columns, keeps the existing classes, and adds one badge per badge of the original class |
| Duplication.DuplicateCourseClasses | course/admin.py:111-149 | the selected classes are duplicated one after the other: at each turn the tables are those duplication describes for that class, with the least copy number free at that turn; so one new class per selected class, after the existing ones, each with a code no earlier class has, earlier copies included; well-formed tables stay well formed |
| Duplication.FollowsExtend | course/admin.py:112 | a run of duplications, one per selected class so far, extends by the next class's duplication |
| Duplication.ExtendDistinctCodes | course/admin.py:117-125 | appending a class whose code no earlier class has keeps every new code distinct from those before it |
| Duplication.DuplicatedCode | course/admin.py:117-125 | the new class is appended, and its code is not the code of any existing class |
| Duplication.DuplicatedWellFormed | course/admin.py:111-149 | the tables stay in id order with every foreign key pointing to an existing row |
| Duplication.DuplicatedTables | course/admin.py:128-135 | the new class's instructors, tasks, widgets and posts carry, in id order, the columns of the original class's rows; the original class's rows are unchanged |
| Duplication.DuplicatedBadges | course/admin.py:138-149 | each badge of the original class has a copy in the new class whose criteria copy the original badge's criteria; every existing badge keeps its criteria |
| Backfill.RemoveFirst | course/admin.py:217 | `list.remove` drops one occurrence: the multiset of what is left is the old one less that id |
| Backfill.Difference | course/admin.py:212-217 | the ids left are exactly the listed ids that are not struck |
| Backfill.Step | course/admin.py:215-221 | one form raises exactly when it is a bound row not in the working list under the unguarded `remove`, or a blank form past the end of the working list; otherwise it writes one entry |
| Backfill.RunFrom | course/admin.py:214-221 | a loop that does not raise writes one entry per form |
| Backfill.Backfill | course/admin.py:212-221 | an initialisation that does not raise writes one entry per form |
| Backfill.TotalFormCount | course/admin.py:206-207 | the form count is the number of expected ids once the parent is saved, none before |
| Backfill.ExpectedIds | course/admin.py:196-204 | the id list is empty when the parent's assignment (course class, badge) is unset, and is the queried list otherwise |
| Backfill.InitializeForms | course/admin.py:212-221 | the loop over the forms, with its working copy and running index, gives what the backfill function describes, the index error included |
| Backfill.GuardedRunShape | course/admin.py:214-221 | while the working list holds an id for every form still to visit, the guarded loop never raises and writes one entry per form |
| Backfill.GuardedNeverFails | course/admin.py:206-221 | in the grade and achievement formsets, at most one form per expected id never raises, whatever the order of bound and blank forms |
| Backfill.RemainingShrink | course/admin.py:212-221 | the working list only loses ids |
| Backfill.UnguardedRejectsAbsent | course/admin.py:273-274 | in the enrollment-grade formset, a bound row whose task is no longer in the working list raises |
| Backfill.UnguardedRejectsForeignRow | course/admin.py:270-274 | in the enrollment-grade formset, a bound row whose task is not one of the class's tasks raises |
| Backfill.UnguardedAgreesWhenOk | course/admin.py:272-278 | when the unguarded loop succeeds, a guarded one gives the same result |
| Backfill.VariantsAgreeWhenOk | course/admin.py:267-278 | the formsets differ only where the enrollment-grade formset raises |
| Backfill.RunAppend | course/admin.py:214 | running over two runs of forms is running over the first, then the second |
| Backfill.RemoveFirstUnique | course/admin.py:217 | in a list without duplicates, `remove` of an id gives the list without that id |
| Backfill.DifferenceMissing | course/admin.py:212-217 | striking ids none of which is in the list leaves the list unchanged |
| Backfill.DifferenceNoDuplicates | course/admin.py:212-217 | the ids left after striking have no duplicates |
| Backfill.DifferenceSplit | course/admin.py:212-217 | striking one id and then the rest is striking them all at once |
| Backfill.StrikePhase | course/admin.py:215-217 | a run of bound forms leaves their entries untouched and leaves the expected ids they do not represent |
| Backfill.FillPhase | course/admin.py:218-221 | blank forms receive the remaining ids in order, each with an empty percentage, and raise an index error once the ids run out |
| Backfill.BackfillFillsMissing | course/admin.py:209-221 | with bound forms first and then k blank forms, the blank forms receive, in order, the first k expected ids that no bound form represents, each with an empty percentage; the loop raises exactly when there are more blank forms than such ids |
| Backfill.DifferenceCount | course/admin.py:212-217 | striking distinct expected ids leaves one id fewer per id struck |
| Backfill.FormCountFillsAll | course/admin.py:206-221 | with the form count of a saved parent, after the bound forms of distinct expected rows, the blank forms receive every expected id with no row yet, in order, each with an empty percentage, and nothing raises |
| Backfill.StrikeOne | course/admin.py:215-217 | one bound form strikes its id from a working list without duplicates |
| Backfill.RestStillExpected | course/admin.py:273-274 | after one distinct id is struck, the later bound rows' ids are still in the working list |
| Backfill.InlineFormSet.constructor | course/admin.py:190-192 | a formset starts with an empty cache |
| Backfill.InlineFormSet.Ids | course/admin.py:194-204 | the property returns the expected-id list, filling the cache on first use |
| Backfill.InlineFormSet.FormCount | course/admin.py:206-207 | the form count is the number of expected ids once the parent is saved, and 0 before; the id list, and so the cache, is read only for a saved parent |
| Backfill.InlineFormSet.Initialize | course/admin.py:209-221 | `__init__` initialises the forms from a copy of the formset's expected ids, as the backfill function describes, and leaves the cache filled when the parent key is set |
| Students.SavedEnrollmentsFacts | course/admin.py:341-345 | the saved enrollments carry exactly the course classes the forms name, in form order; all point to the new student and get consecutive ids |
| Students.NoClassNoEnrollment | course/admin.py:344 | forms that name no course class save nothing |
| Students.SaveEnrollments | course/admin.py:341-345 | the loop appends the enrollments the saved-enrollments function describes |
| Students.SavedEnrollments | course/admin.py:341-345 | at most one enrollment per form |
| Students.AddView | course/admin.py:315-351 | a POST with a valid form and formset saves the new records and redirects to the list; on any other request this code saves nothing and hands the request to the standard add page |
| Students.Added | course/admin.py:321-345 | a valid submission adds one user and one student, and at most one enrollment per form |
| Students.AddedFacts | course/admin.py:321-345 | one user whose username and email are the form's email, one student of that user named "first last", one enrollment per chosen class, and the existing rows untouched |
| Progress.Round | course/views.py:133-134 | `round` gives an integer within one half of its argument, strictly nearer away from a half, and even at a half |
| Progress.RoundInteger | course/views.py:133-134 | `round` leaves integers unchanged |
| Progress.RoundMonotone | course/views.py:133-134 | `round` is monotone |
| Progress.RoundTiesToEven | course/views.py:133-134 | every half `k + 0.5` rounds to whichever of `k` and `k + 1` is even |
| Progress.ScaleIsProduct | course/views.py:134 | the repeated sum is the product of points and percentage |
| Progress.FirstGrade | course/views.py:131 | no grade exactly when the enrollment has none on the task; otherwise the enrollment's first grade |
| Progress.AssignmentTasksData | course/views.py:124-143 | one entry per task, in task order: name, points and optional flag; no percentage, 0 points and not canceled without a grade; with a grade, the rounded percentage, the rounded share of the points and the grade's canceled flag |
| Progress.RequiredPointsCons | course/views.py:109 | the required points of a task followed by more tasks are its own (0 if optional) plus theirs |
| Progress.EarnedPointsCons | course/views.py:110 | the earned points of a task followed by more tasks are its own (0 if canceled) plus theirs |
| Progress.FoldTaskPoints | course/views.py:109 | the task-points `reduce` adds up the points of the non-optional tasks only |
| Progress.FoldGradePoints | course/views.py:110 | the grade-points `reduce` adds up the earned points of the tasks whose grade is not canceled, optional tasks included |
| Progress.AssignmentItemsData | course/views.py:99-122 | one entry per assignment, in order, with its name, description, task entries, required and earned totals, and a percentage of 0 for no required points and the ratio times 100 otherwise |
| Progress.ScaledShareWithin | course/views.py:134 | a fractional share of n points lies between 0 and n |
| Progress.RoundedShareWithin | course/views.py:134 | the rounded share of n points lies between 0 and n |
| Progress.DescribedPointsWithin | course/views.py:129-139 | with a fractional grade, a task earns between 0 and its points |
| Progress.FirstGradeFraction | course/views.py:131 | the first grade of fractional grades is a fraction |
| Progress.EarnedWithinRequired | course/views.py:109-110 | with no optional task and fractional grades, the earned points lie between 0 and the required points |
| Progress.PercentageWithinHundred | course/views.py:109-118 | with no optional task and fractional grades, an assignment's percentage lies between 0 and 100 |
| Ranking.Contribution | course/views.py:44-48 | a canceled grade contributes 0; a fractional grade of a task worth non-negative points contributes between 0 and the points |
| Ranking.Total | course/views.py:44-50 | a student with no grade in the class totals 0 |
| Ranking.Participants | course/views.py:41-59 | the groups of the query: each student with a grade in the class, once |
| Ranking.Entries | course/views.py:41-52 | each student paired with that student's total |
| Ranking.CountAbove | course/views.py:57 | the number of totals above a value is at most the number of students |
| Ranking.RankOf | course/views.py:57 | a rank lies between 1 and the number of students plus one |
| Ranking.NameLeTotal | course/views.py:60 | any two names are ordered one way or the other |
| Ranking.NameLeAntisymmetric | course/views.py:60 | names ordered both ways are equal |
| Ranking.Precedes | course/views.py:60 | a row ordered before another never has a smaller total |
| Ranking.PrecedesTotal | course/views.py:60 | any two rows are ordered one way or the other |
| Ranking.Insert | course/views.py:60 | inserting adds the row and nothing else |
| Ranking.InsertSorted | course/views.py:60 | inserting into ordered rows keeps them ordered |
| Ranking.Sort | course/views.py:60 | ordering the rows is a permutation of them |
| Ranking.SortSorted | course/views.py:60 | the rows come by total descending, then by name, then by student id |
| Ranking.Annotate | course/views.py:57 | each row shows its student, its total and its rank among all the class's students |
| Ranking.CountAboveAppend | course/views.py:57 | counting over two runs of rows adds the counts |
| Ranking.CountAboveRemove | course/views.py:57 | taking one row out lowers the count by that row's part |
| Ranking.CountAbovePermutation | course/views.py:57 | the rank does not depend on the order of the rows |
| Ranking.CountAboveNone | course/views.py:57 | no total above the largest |
| Ranking.CountAboveAll | course/views.py:57 | every total above one smaller than all |
| Ranking.RankMonotone | course/views.py:57 | a larger total never has a worse rank |
| Ranking.RankStrict | course/views.py:57 | a smaller total present in the class ranks strictly below a larger one |
| Ranking.SortedTotalsDescend | course/views.py:60 | in the ordered rows, totals never increase |
| Ranking.SortedRank | course/views.py:57-60 | a row's rank is at most its position plus one, and equals it right after a lower total |
| Ranking.CompetitionRanking | course/views.py:57 | totals 80, 80 and 60 rank 1, 1 and 3: `Rank`, not a dense rank |
| Ranking.EntriesFacts | course/views.py:41-52 | each entry is a participant with that participant's total |
| Ranking.Ranking | course/views.py:41-60 | the ranking has `ranking_size` rows, or one per student with a grade in the class when there are fewer |
| Ranking.RankingOrder | course/views.py:60 | rows come by total descending, and rows with equal totals by full name |
| Ranking.RankingMembers | course/views.py:41-59 | every row is a student with a grade in the class, showing the sum over that student's grades of the percentage times the points, 0 for a canceled grade |
| Ranking.RankingRanks | course/views.py:53-60 | the first row ranks 1, a row ranks at most its position, ties share a rank, and a row after a lower total ranks at its position |
| Ranking.SortedPosition | course/views.py:60 | every participant has a place in the ordered rows |
| Ranking.RankingRow | course/views.py:60 | the i-th row shows the i-th ordered entry |
| Ranking.RankingKeepsBest | course/views.py:60 | a student left out by the limit has a total no greater than any shown row |
| Ranking.RankingComplete | course/views.py:60 | with room for everyone, every student with a grade in the class is shown |
| Courses.MeUrl | course/views.py:25 | the address is `/`, the course code, `/`, the class code and `/me` |
| Courses.CoursesView | course/views.py:15-33 | a redirect exactly when the user is a student with one enrollment, to that enrollment's `/<course>/<class>/me`; otherwise the list of enrollments, empty for a user who is not a student |
| Courses.FirstSlash | course/views.py:25 | no position when there is no '/'; otherwise the position of the first '/' |
| Courses.FirstSlashAfter | course/views.py:25 | a code without '/' followed by '/' has its first slash at its end |
| Courses.ParseMeUrlRoundTrip | course/views.py:25 | for course and class codes without '/', reading the redirect address back gives the two codes |
| Courses.MeUrlInjective | course/views.py:25 | for course and class codes without '/', different classes redirect to different addresses |
| Courses.MeUrlCollides | course/views.py:25 | codes containing '/' can give the same address: course `a/b` with class `c`, and course `a` with class `b/c` |

## Left out

- Courses.ParseMeUrlRoundTrip: proved only for codes without '/'. Nothing in the view keeps '/' out
  of course or class codes.
- Courses.MeUrlInjective: proved only for codes without '/'. Codes with one can collide: course
  `a/b` with class `c` and course `a` with class `b/c` both redirect to `/a/b/c/me`
  (`Courses.MeUrlCollides`).
- Email sending, the `CaptchaPasswordResetForm` call and the admin messages framework are not
  modelled. The action returns the message text's parameters and the emails it would hand to the
  form.
- ORM queries are given as sequences in the order the code asks for: `filter`, `order_by`,
  `first`, `values_list` and `get_object_or_404`. Template rendering and HTTP responses are a
  value naming what is shown.
- Python floats are modelled as exact reals. `round` is written out as round half to even on
  those reals, so float representation error is not modelled. `Progress.Scale` stands for the
  product of points and percentage.
- Ranking totals are exact reals. The `IntegerField` output conversion of the query's sum is not
  modelled.
- `Ranking.Precedes` orders rows with equal total and name by student id. SQL leaves that order
  unspecified.
- Names are compared by character code. Database collation is not modelled.
- `Rank` is taken to order totals descending. The `rank` package's window definition is not part
  of this model.
- Ids are allocated as one more than the last id of the table. Database sequences are not
  modelled.
- The standard admin add page that `StudentAdmin.add_view` falls back to is not part of this
  model. The model records that the custom code saves nothing in that case.
- Students.AddView: the saved user's password state is not modelled (`Students.UserRow` has no
  password field). The code saves that user without `set_unusable_password`, so
  `Invitation.AddedWithoutPasswordIsInvitable` does not cover users created on the student add
  page.
- Students.AddView: save failures and partial saves are not modelled. The model always saves the
  user, the student and the enrollments. A `user.save()` with an email that is already a
  username fails on the unique username. This path returns before the standard add page, so it
  runs outside that page's transaction, and a failure after `user.save()` leaves a user with no
  student.
- Students.AddView: the assignment `self.form = NewStudentForm` (course/admin.py:316), which
  changes the admin instance on every call, is not modelled.
- Each formset is given its forms as bound or blank. The Django `BaseInlineFormSet` machinery that
  builds them is not modelled, and neither is form rendering.
- `Backfill.InlineFormSet.Ids`: a cache of `None` and a cache of `[]` are one value here. The code
  refills both alike.
- `AchievementInlineFormSet` (course/admin.py:414-445) has the same body as `GradeInlineFormSet`,
  with the badge as its parent key. It is modelled by the `Guarded` variant of the same class.
- `refresh_achievements`, rendering markdown in `PostAdmin.save_model`, `last_login_formatted`,
  the thumbnail and `has_usable_password` display helpers, and the admin `Media`, `list_display`
  and ordering declarations are left out. Each is a foreign call, formatting or
  configuration.
- `gamifiededucation/settings.py` and the migration that adds the lives fields hold configuration
  and schema only, with no logic.
- `Duplication.DuplicatedTables` and `Duplication.DuplicatedBadges` state the copies' columns
  (`Data`), not their exact rows. The exact rows with their fresh ids are stated by
  `Duplication.CopyOwnedToNew`.
