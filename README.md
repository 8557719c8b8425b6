# EmployeeNet core, modelled in Dafny

EmployeeNet is a small Next.js application for keeping a table of employees.
This project models the parts of it that hold rules:

- **The `/api/employees` route** (`store.dfy`). The `employees` table is a
  class holding its rows and its AUTO_INCREMENT counter. POST, PUT and DELETE
  are methods that change it. GET returns the rows. The duplicate-email check
  is a loop over the rows. The methods are proved to keep ids unique and
  positive, and to keep emails pairwise distinct.
- **The list view** (`list.dfy`). This covers:
  - the free-text search over five columns;
  - the comparator the list is sorted with;
  - the sort itself, an insertion sort on an array copy of the search result;
  - the `sortBy`/`sortOrder` state that header clicks update.
- **The management page** (`management.dfy`, `schema.dfy`). This covers:
  - the email/phone search with the exact department and position filters;
  - the distinct department and position lists;
  - the per-field rules of the Yup schema.
- **The add/edit form** (`form.dfy`). This covers:
  - the hand-written validator, which builds its error map field by field;
  - the change handler;
  - the submit handler's state updates;
  - the loading of an existing employee, which cuts the hire date at its `T`.

Supporting modules:

- `records.dfy`: the row type.
- `jstext.dfy`: the JavaScript string behaviour the code relies on: `trim`,
  `toLowerCase`, `includes`, `<` on strings, and white space as `\s` sees it.
- `seqs.dfy`: `filter` and `[...new Set(...)]` on sequences.
- `wrappers.dfy`: `Option`.

Two behaviours of the route deserve a note:

- The duplicate-email check compares with SQL `=`. Its behaviour depends on
  a collation that is not visible, so the model uses exact string equality.
- A PUT for an id that no row has answers 200 and changes nothing; there is
  no not-found answer.

## Model

| member | source | states |
|---|---|---|
| Records.RowOf | src/app/api/employees/route.js:42-52 | the inserted or updated row carries the given id and exactly the eight submitted columns |
| Store.EmployeeTable.constructor | src/app/api/employees/route.js:39-57 | the table starts empty, with the counter that supplies `insertId` at 1 |
| Store.EmployeeTable.All | src/app/api/employees/route.js:4-9 | GET returns every row |
| Store.EmployeeTable.EmailInUse | src/app/api/employees/route.js:75-82 | the duplicate check finds a row exactly when some row has that email and, for PUT, a different id |
| Store.EmployeeTable.Create | src/app/api/employees/route.js:18-59 | a taken email gives 400 with the table and counter unchanged; otherwise one row with a fresh id and the submitted columns is appended, 201 returns that id, and no earlier row changes; ids stay unique and emails stay distinct |
| Store.EmployeeTable.Update | src/app/api/employees/route.js:69-109 | an email held by another id gives 400 with no change; otherwise 200 and the table becomes the rows with that id overwritten; ids stay unique and emails stay distinct |
| Store.EmployeeTable.Delete | src/app/api/employees/route.js:118-129 | always 200, and the table becomes the rows without that id |
| Store.DeleteTwice | src/app/api/employees/route.js:123-129 | deleting the same id twice answers 200 both times and leaves the state of one delete: the rows without that id and the counter unchanged |
| Store.Without | src/app/api/employees/route.js:123 | what `DELETE ... WHERE id = ?` leaves: only rows of the table, none with that id; DeleteRemovesExactlyThatId states it completely |
| Store.ClaimsEmail | src/app/api/employees/route.js:75-82 | the row test of the duplicate queries, `email = ?` and, for PUT, `id != ?`; OwnEmailNeverConflicts states what it excludes |
| Store.EmailHeld | src/app/api/employees/route.js:24-30 | the duplicate query returns a row; EmailInUse is proved to compute it |
| Store.Response.Status | src/app/api/employees/route.js:32-35 | 400 answers exactly the duplicate email, 201 exactly a create, 200 an update or a delete |
| Store.Response.Message | src/app/api/employees/route.js:56-58 | the JSON message of each answer, as the handlers write it |
| Store.Overwritten | src/app/api/employees/route.js:90-103 | every row with the id gets the eight new columns under the same id; every other row is unchanged |
| Store.OwnEmailNeverConflicts | src/app/api/employees/route.js:78 | when emails are distinct, a PUT of a row with its own current email never hits the duplicate check |
| Store.OverwritePreservesDistinctEmails | src/app/api/employees/route.js:75-103 | a PUT that passes the duplicate check keeps emails pairwise distinct |
| Store.OverwriteKeepsIds | src/app/api/employees/route.js:90-103 | a PUT changes neither the number of rows nor any row's id |
| Store.OverwriteAbsentIdIsIdentity | src/app/api/employees/route.js:90-109 | a PUT for an id no row has leaves the table as it was |
| Store.DeleteRemovesExactlyThatId | src/app/api/employees/route.js:123 | DELETE drops every row with the id and keeps every other row as often as it occurred |
| Store.DeleteAbsentIdIsIdentity | src/app/api/employees/route.js:123-129 | deleting an id no row has leaves the table as it was |
| Store.DeleteIdempotent | src/app/api/employees/route.js:123-129 | a second DELETE of the same id changes nothing |
| Seqs.Filter | src/app/Components/EmployeeList.js:11 | `filter` returns only kept elements of its input and is no longer than it |
| Seqs.FilterCounts | src/app/Components/EmployeeList.js:11 | `filter` keeps each kept value exactly as often as it occurs and drops every other value |
| Seqs.FilterIsSubsequence | src/app/Components/EmployeeList.js:11 | `filter` keeps the relative order of what it keeps |
| Seqs.FilterKeepingAll | src/app/Components/EmployeeList.js:11 | a `filter` that keeps everything returns its input |
| Seqs.FilterIdempotent | src/app/api/employees/route.js:123 | filtering twice with the same test equals filtering once |
| Seqs.FilterPreservesPairwise | src/app/api/employees/route.js:123 | removing rows keeps any pairwise property, such as distinct ids or emails |
| Seqs.FilterMembership | src/app/Components/EmployeeList.js:11 | a value is in the result exactly when it is in the input and passes the test |
| Seqs.IndexOf | src/app/Components/EmployeeManagement.js:77-78 | the first position where a value occurs |
| Seqs.Distinct | src/app/Components/EmployeeManagement.js:77-78 | `[...new Set(xs)]` holds every value of `xs`, holds nothing else, and has no repeats |
| Seqs.DistinctInFirstOccurrenceOrder | src/app/Components/EmployeeManagement.js:77-78 | `[...new Set(xs)]` lists values in the order of their first occurrence in `xs` |
| JsText.AllChars | src/app/Components/EmployeeManagement.js:29 | true exactly when every character passes the test |
| JsText.TrimStart | src/app/Components/EmployeeForm.js:58 | removes a blank prefix, leaving text that does not start with white space |
| JsText.TrimEnd | src/app/Components/EmployeeForm.js:58 | removes a blank suffix, leaving text that does not end with white space |
| JsText.Trim | src/app/Components/EmployeeForm.js:58 | `trim()` is empty exactly when the text is blank; otherwise it neither starts nor ends with white space |
| JsText.Lower | src/app/Components/EmployeeList.js:12 | `toLowerCase` keeps the length and lowers each character |
| JsText.Contains | src/app/Components/EmployeeList.js:12 | `includes`; LowerContainsIgnoresCase and EmptyIsContained state its meaning |
| JsText.StrLess | src/app/Components/EmployeeList.js:24-26 | `<` and `>` on texts; StrLessIrreflexive, StrLessTransitive and StrLessTotal make it a strict total order |
| JsText.LowerContainsIgnoresCase | src/app/Components/EmployeeList.js:12-16 | `a.toLowerCase().includes(b.toLowerCase())` is exactly case-insensitive substring search |
| JsText.EmptyIsContained | src/app/Components/EmployeeList.js:11-17 | every text includes the empty text |
| JsText.StrLessIrreflexive | src/app/Components/EmployeeList.js:24-26 | no text is `<` itself |
| JsText.StrLessTransitive | src/app/Components/EmployeeList.js:24-26 | `<` on texts is transitive |
| JsText.StrLessTotal | src/app/Components/EmployeeList.js:24-26 | two different texts are ordered one way or the other |
| EmployeeList.MatchesSearch | src/app/Components/EmployeeList.js:12-16 | the five-field test of `filteredEmployees`; SearchKeepsExactlyTheFound states its meaning |
| EmployeeList.Search | src/app/Components/EmployeeList.js:11-17 | `filteredEmployees` holds only rows of the input that pass the test; SearchKeepsExactlyTheFound states it completely |
| EmployeeList.SearchKeepsExactlyTheFound | src/app/Components/EmployeeList.js:11-17 | the search keeps exactly the rows where first name, last name, email, department or position contains the term ignoring case, each as often as it occurs |
| EmployeeList.SearchIgnoresPhone | src/app/Components/EmployeeList.js:11-17 | the phone number never affects the search |
| EmployeeList.EmptySearchKeepsAll | src/app/Components/EmployeeList.js:11-17 | an empty term keeps every row, in order |
| EmployeeList.SearchPreservesOrder | src/app/Components/EmployeeList.js:11 | the search result is an order-preserving subsequence of the rows |
| EmployeeList.KeyLess | src/app/Components/EmployeeList.js:20-26 | `a[sortBy] < b[sortBy]`; the KeyLess lemmas make it a strict total order on keys |
| EmployeeList.Compare | src/app/Components/EmployeeList.js:23-27 | the comparator answers 1 or -1, never 0; CompareAntisymmetric and CompareTransitive state its order |
| EmployeeList.KeyLessIrreflexive | src/app/Components/EmployeeList.js:20-26 | no row's key is below its own |
| EmployeeList.KeyLessTransitive | src/app/Components/EmployeeList.js:20-26 | the key order is transitive for every sortable column |
| EmployeeList.KeyLessTotal | src/app/Components/EmployeeList.js:20-26 | two rows with different keys are ordered one way or the other |
| EmployeeList.CompareAntisymmetric | src/app/Components/EmployeeList.js:23-27 | when the comparator puts `a` after `b`, it lets `b` stand before `a` |
| EmployeeList.CompareTransitive | src/app/Components/EmployeeList.js:23-27 | the comparator's "may stand before" relation is transitive, for both directions |
| EmployeeList.SortedDistinctKeysAreStrict | src/app/Components/EmployeeList.js:19-28 | with pairwise distinct keys, `asc` gives strictly increasing keys and `desc` strictly decreasing ones |
| EmployeeList.SwapStep | src/app/Components/EmployeeList.js:19 | one swap of the insertion step keeps the rows around the moving row in order, with the moving row one place further left |
| EmployeeList.SwapStepMovesHole | src/app/Components/EmployeeList.js:19 | after the swap the moving row may stand before the row it passed and every row after it |
| EmployeeList.Swap | src/app/Components/EmployeeList.js:19 | exchanging two rows of the array changes only those two places and keeps the same rows |
| EmployeeList.InsertDone | src/app/Components/EmployeeList.js:19 | when the inserted row may stand after its left neighbour, one more row is in order |
| EmployeeList.Insert | src/app/Components/EmployeeList.js:19 | after inserting row `i`, the first `i + 1` rows are in comparator order, the rows after them are untouched, and the array's contents are a permutation of before |
| EmployeeList.SortInPlace | src/app/Components/EmployeeList.js:19-28 | the array ends in comparator order and holds the same rows as before |
| EmployeeList.SortedCopy | src/app/Components/EmployeeList.js:19-28 | `[...filtered].sort(cmp)` is a permutation of the filtered rows in comparator order; the input is not changed |
| EmployeeList.Flipped | src/app/Components/EmployeeList.js:32 | the other direction differs from the current one |
| EmployeeList.ListView.constructor | src/app/Components/EmployeeList.js:7-9 | the view starts with an empty search, sorted by first name, ascending |
| EmployeeList.ListView.SetSearchTerm | src/app/Components/EmployeeList.js:62 | typing sets the search term |
| EmployeeList.ListView.HandleSort | src/app/Components/EmployeeList.js:30-37 | clicking the current column keeps it and flips the direction; clicking another column selects it, ascending |
| EmployeeList.ListView.Shown | src/app/Components/EmployeeList.js:11-28 | the shown rows are the search result, sorted by the current column and direction |
| EmployeeList.ClickCurrentHeaderTwice | src/app/Components/EmployeeList.js:30-37 | two clicks on the current column restore the column and direction, and the search term is untouched |
| EmployeeManagement.Kept | src/app/Components/EmployeeManagement.js:148-155 | the three-way test of `filteredEmployees`; FilteredKeepsExactlyWanted states its meaning |
| EmployeeManagement.Filtered | src/app/Components/EmployeeManagement.js:147-156 | `filteredEmployees` holds only rows of the input that pass the test; FilteredKeepsExactlyWanted states it completely |
| EmployeeManagement.EmptySearchMatches | src/app/Components/EmployeeManagement.js:149 | the empty query is found, ignoring case, in every field |
| EmployeeManagement.FilteredKeepsExactlyWanted | src/app/Components/EmployeeManagement.js:147-156 | a row is kept exactly when the chosen field contains the query ignoring case and each non-empty department or position choice equals the row's value, each row as often as it occurs |
| EmployeeManagement.CategoryFiltersAreExact | src/app/Components/EmployeeManagement.js:151-154 | every kept row has exactly the chosen department and position, letter case included |
| EmployeeManagement.NoFilterKeepsAll | src/app/Components/EmployeeManagement.js:147-156 | with no query and no choices the list is shown as loaded |
| EmployeeManagement.FilteredPreservesOrder | src/app/Components/EmployeeManagement.js:147 | the filtered list is an order-preserving subsequence of the rows |
| EmployeeManagement.Column | src/app/Components/EmployeeManagement.js:77-78 | `employees.map(get)` has one value per row, in row order |
| EmployeeManagement.Departments | src/app/Components/EmployeeManagement.js:77 | `departments`; DepartmentsListEachDepartmentOnce states its meaning |
| EmployeeManagement.Positions | src/app/Components/EmployeeManagement.js:78 | `positions`; PositionsListEachPositionOnce states its meaning |
| EmployeeManagement.DistinctColumnListsEachValueOnce | src/app/Components/EmployeeManagement.js:77-78 | the distinct values of a column include every value present, once, and nothing else, in order of first appearance |
| EmployeeManagement.DepartmentsListEachDepartmentOnce | src/app/Components/EmployeeManagement.js:77 | `departments` holds every department present exactly once and no other value |
| EmployeeManagement.PositionsListEachPositionOnce | src/app/Components/EmployeeManagement.js:78 | `positions` holds every position present exactly once and no other value |
| EmployeeSchema.NameRule | src/app/Components/EmployeeManagement.js:23-32 | a missing name gives only the required message; a name passes exactly when it is not a number, matches `^[a-zA-Z\s]+$` and has 2 to 50 characters |
| EmployeeSchema.RequiredMessageAsWritten | src/app/Components/EmployeeManagement.js:32-42 | the required messages as declared, the same for both name fields; MissingLastNameReadsAsFirstName exhibits it |
| EmployeeSchema.MissingLastNameReadsAsFirstName | src/app/Components/EmployeeManagement.js:33-42 | as declared, a missing last name is reported exactly as a missing first name |
| EmployeeSchema.NameFieldRule | src/app/Components/EmployeeManagement.js:23-42 | each name field's rule with its own required message, accepting exactly the valid names |
| EmployeeSchema.CorrectedMessagesNameTheField | src/app/Components/EmployeeManagement.js:33-42 | with the corrected message a missing first name and a missing last name read differently, and acceptance is unchanged |
| EmployeeSchema.AcceptedNameIsNotBlank | src/app/Components/EmployeeManagement.js:24-29 | when `Number` maps white space to 0, as JavaScript does, an accepted name is never blank |
| EmployeeSchema.EmailRule | src/app/Components/EmployeeManagement.js:43 | the email passes exactly when present and valid; missing gives only "Email is required" |
| EmployeeSchema.PhoneRule | src/app/Components/EmployeeManagement.js:44-46 | the phone passes exactly when it is ten ASCII digits; missing gives only "Phone number is required" |
| EmployeeSchema.RequiredRule | src/app/Components/EmployeeManagement.js:47-48 | department and position pass exactly when present; otherwise only their message |
| EmployeeSchema.HireDateRule | src/app/Components/EmployeeManagement.js:49-51 | the hire date passes exactly when present and not after now; missing gives only "Hire date is required" |
| EmployeeSchema.SalaryRule | src/app/Components/EmployeeManagement.js:52-54 | the salary passes exactly when present and above zero; missing gives only "Salary is required" |
| Form.Blank | src/app/Components/EmployeeForm.js:6-15 | the empty form: every field is the empty text |
| Form.FormData.With | src/app/Components/EmployeeForm.js:43-46 | `{...formData, [name]: value}` changes the named field and keeps every other field |
| Form.DatePart | src/app/Components/EmployeeForm.js:24 | `split('T')[0]` is the prefix before the first `T`, or the whole text when there is none |
| Form.DatePartOfTimestamp | src/app/Components/EmployeeForm.js:24 | the date part of `date + "T" + time` is `date` |
| Form.DatePartWithoutT | src/app/Components/EmployeeForm.js:24 | text without a `T` is kept whole |
| Form.DatePartIdempotent | src/app/Components/EmployeeForm.js:24 | cutting a second time changes nothing |
| Form.Loaded | src/app/Components/EmployeeForm.js:20-37 | an employee loads with the hire date cut at the first `T` and every other field as given; no employee gives the blank form |
| Form.HasEmailShape | src/app/Components/EmployeeForm.js:62 | the email test; HasEmailShapeMatchesPattern proves it equal to `/\S+@\S+\.\S+/` |
| Form.Problem | src/app/Components/EmployeeForm.js:58-73 | the message each field's check gives, if any; CollectErrors and EmptyReportMeansAcceptable state how validation reports it |
| Form.HasEmailShapeMatchesPattern | src/app/Components/EmployeeForm.js:62 | the `@`-and-`.` search is exactly `/\S+@\S+\.\S+/.test` |
| Form.EmptyReportMeansAcceptable | src/app/Components/EmployeeForm.js:75-76 | the collected error map is empty exactly when no field has a problem |
| Form.BlankFormReportsEveryField | src/app/Components/EmployeeForm.js:56-73 | an empty form gets an error on each of the eight fields |
| Form.SpaceSalaryIsAccepted | src/app/Components/EmployeeForm.js:69-73 | given JavaScript's `Number(" ") == 0` and `parseFloat(" ")` NaN, a salary of one space passes validation |
| Form.NoteStep | src/app/Components/EmployeeForm.js:56-74 | recording the next field's outcome extends the reported fields by that field |
| Form.RequireText | src/app/Components/EmployeeForm.js:58-67 | a required-text check records its message exactly when the trimmed value is empty |
| Form.RequireValue | src/app/Components/EmployeeForm.js:68 | the hire-date check records its message exactly when the value is empty; white space counts as present |
| Form.CheckEmail | src/app/Components/EmployeeForm.js:60-64 | blank gives "Email is required"; otherwise "Email is invalid" exactly when the pattern is not found |
| Form.CheckSalary | src/app/Components/EmployeeForm.js:69-73 | empty gives "Salary is required"; otherwise NaN under `Number`, or a `parseFloat` of zero or below, gives "Salary must be a positive number" |
| Form.CollectErrors | src/app/Components/EmployeeForm.js:56-74 | every field is checked, none skipped; the map holds one entry for each field with a problem, with its message, and nothing else |
| Form.EmployeeForm.constructor | src/app/Components/EmployeeForm.js:5-39 | the form mounts with the loaded employee, or blank, and no errors |
| Form.EmployeeForm.ReceiveEmployee | src/app/Components/EmployeeForm.js:20-39 | a new `employee` prop reloads the fields and clears every error |
| Form.EmployeeForm.HandleChange | src/app/Components/EmployeeForm.js:41-54 | only the named field changes; its error, if any, becomes empty; no other error changes and no key is added or removed |
| Form.EmployeeForm.ValidateForm | src/app/Components/EmployeeForm.js:56-77 | the errors become the collected map, and the answer is true exactly when it is empty, that is, when no field has a problem |
| Form.EmployeeForm.HandleSubmit | src/app/Components/EmployeeForm.js:79-112 | an invalid form sends nothing and keeps its fields; otherwise the fields go out with the parsed salary, success clears the errors and blanks an add form but keeps an edit form, and failure leaves only the `submit` error |

## Left out

- Database access is not modelled: the MySQL pool, `getConnection`/`release`, JSON parsing of requests, `NextResponse`, and the 500 answers for storage failures. The table is in memory and a handler's answer is a value.
- Store.EmployeeTable.Create: ids come from a counter starting at 1. Of the database's `insertId` the model claims only that it is fresh and never reused.
- The race between the duplicate check and the write of two concurrent POST or PUT requests is not modelled; the model is sequential.
- Store.EmployeeTable.EmailInUse: compares emails by exact equality. Whether the database's collation ignores case, trailing spaces or accents is not visible.
- Store.EmployeeTable.All: the in-memory table keeps each column as submitted and GET returns that text, while MySQL converts on storage. A DATE column comes back as timestamp text, which is what the form's `split('T')` cuts when it loads an employee; the model's rows hold only the submitted `YYYY-MM-DD`. A `null` field becomes SQL NULL, which `email = ?` never matches, so it never counts as a duplicate; the model's fields cannot be null.
- The server validates no field. Create and Update accept any eight columns, as the route does.
- Number coercion is a parameter. The form takes `Number`/`isNaN` and `parseFloat` as a `JsText.Coercions` value. The schema's name rules take `Number` as a bare `toNumber` function for their `isNaN` test. Yup's `.email()` test is a parameter too.
- EmployeeSchema.HireDateRule: dates are day numbers and "now" is a parameter. In the source, "now" is the moment the schema module was loaded, compared to the millisecond.
- EmployeeSchema.SalaryRule: takes a number that has already been converted. Yup's type error for text that is not a number is not modelled.
- EmployeeSchema.NameRule: returns every failing message in declaration order. Which one Formik shows, and Formik turning an empty field into `undefined`, are not modelled beyond treating the empty text as absent.
- Lower-casing covers ASCII letters only. Lengths and `<` on text count Unicode code points, where JavaScript counts UTF-16 code units.
- EmployeeList.SortedCopy: stands in for the engine's `Array.prototype.sort` with an insertion sort. When two rows share a key, the comparator answers -1 both ways. ECMAScript then calls it inconsistent and leaves the order of the whole result implementation-defined, not only the order of the tied rows. The proved comparator order on input with ties describes this insertion sort and engines that behave like it. What the language guarantees is the case without ties, which EmployeeList.SortedDistinctKeysAreStrict states.
- EmployeeList.KeyLess: compares salaries as numbers. A salary the database returns as text would compare as text in the source.
- Form.Loaded: an employee's values arrive as text. The source spreads the whole row into the form, `id` included, and keeps the salary as the API returned it; if that is the number 0, it is falsy and reads "Salary is required".
- Form.EmployeeForm.HandleSubmit: the answer of `onSubmit` is a parameter. The `await` and any interleaving with other events are not modelled; `isSubmitting` is true only during the call.
- The page handlers of `EmployeeManagement.js` are not modelled: `fetchEmployees`, `handleSubmit`, `handleDelete`, and `handleEdit`/`resetForm`, which call a `setFormData` that the page does not define. Neither are `EmployeeManager.js`, the pages, `fetch`, `window.confirm` or any markup.

## Findings

| source | as written | input that shows it | evidently intended | confidence | as-written member | corrected member |
|---|---|---|---|---|---|---|
| src/app/Components/EmployeeManagement.js:42 | `last_name` is `.required("First name is required")` | a submission with `last_name` empty | "Last name is required" | high; not executed | EmployeeSchema.MissingLastNameReadsAsFirstName | EmployeeSchema.CorrectedMessagesNameTheField |
