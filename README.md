# InspectionWorkApp — a verified model of the inspection scheduler

InspectionWorkApp is a shop-floor kiosk for shift inspections.
- Standing *assignments* link a work to a sector, with a frequency, a role and a work type.
- The kiosk lists the assignments due in the current shift (08:00–20:00 or 20:00–08:00) for the signed-in role and the selected sector.
- An operator signs in by laying an access card on a serial card reader and records "completed" or "not done" for a task. Each outcome is an *execution* row due at the shift start.

The model covers:
- the shift clock;
- the task resolver and its pages;
- the sector fail-over;
- the two recording buttons;
- the assignment generator job and the KO placeholder job;
- the administrator's store operations;
- the report filter;
- the employee directory over the access-control table `dic_SKUD`;
- the operator session;
- the card reader's line framing and card decision;
- the date column converter;
- the start-up seeding.

Modelling conventions:
- Time is an integer count of seconds since 0001-01-01. `Date`, `Hour`, `AddDays` and `AddHours` are integer arithmetic.
- `DefaultExecutionTime` is 1900-01-01, the "never executed" value.
- The current time, the card-reader port outcome, the HR-system reply and every database failure are parameters.

| module (file) | what it holds |
|---|---|
| `Common` (common.dfy) | `Option`, and `Call` (returned or threw) |
| `Clock` (clock.dfy) | time, the shift start and its characterisation |
| `Calendar` (calendar.dfy) | the proleptic Gregorian calendar of .NET `DateTime`, and the `dd.MM.yyyy HH:mm` text |
| `Records` (records.dfy) | the rows of the database context, lookups by id, (WorkId, SectorId) lookup, key invariants |
| `Store` (store.dfy) | the per-sector fill shared by the admin window and the generator, and the `Db` class holding the tables |
| `TaskResolver` (resolver.dfy) | the due-task rule, the fail-over rule, paging |
| `MainWindow` (main_window.dfy) | the `Kiosk` class: load, pages, record, fail-over, sector selector |
| `Admin` (admin.dfy) | the administrator's add-work, create-assignment, delete-all and create-task |
| `AssignmentJob` (generate_assignments.dfy) | `GenerateAssignmentsJob` |
| `TaskJob` (generate_tasks.dfy) | `GenerateTasksJob` |
| `Report` (report.dfy) | `ReportWindow.LoadReports` |
| `EmployeeDirectory` (employee_directory.dfy) | the role classifier, and the `SkudTable` class for the employee repository |
| `Operators` (operator_service.dfy) | the `OperatorService` class |
| `CardReader` (card_reader.dfy) | line framing, the card-id pattern, and the `Reader` class |
| `DateConverter` (date_converter.dfy) | the task grid's time column |
| `Seeding` (data_initializer.dfy) | the start-up seeding |

Behaviour of the code that the model reproduces:
- The 1C fallback is never taken.
  - `OperatorService.InitializeOperatorAsync` consults the HR system only when the table lookup returns null.
  - The table lookup always returns a record, with an error code when the card is unknown.
  - So `Operators.OperatorService.InitializeOperator` is the table lookup alone. `FetchAndSaveFrom1C` is modelled on its own.
- `GenerateTasksJob` is present but never scheduled. Only `GenerateAssignmentsJob` runs.
- Roles:
  - The seeded role 2 is called "Администратор", yet the kiosk treats role 4 as the administrator and role 2 as a task role.
  - The position classifier yields 4 for managers.
- Status 2 means "not done" and is also the state of a placeholder.
- The task list and the fail-over test use different next-due rules and role filters. Both are modelled as written, and nothing claims that they agree.
- Seeded frequency rows carry no intervals.
  - The task list therefore counts frequencies 2 to 5 as due again after zero days.
  - Other frequency ids are due again after seven days.
  - `Seeding.SeededIntervalsAreZero` states this.
- Paging: a reload does not reset the current page, so a page beyond the new page count can be shown empty. `TaskResolver.PageOf` states when a page is empty.
- `SpecificError` (0), the code for a database error, equals the success code of the HR system. `Sync` treats a record with code 0 as good.
- How the database is read:
  - A required navigation that a query reads is an inner join: a row whose referenced row is missing is not read.
  - The report query ends in a projection (`Select`), so EF ignores its `Include`s. Its joins come from the assignment, work and sector that the projection reads.
  - `Report.Joined` also asks for the assignment's work type. The foreign key on the work type id means a real database has no row that lacks one, so this changes nothing there.
  - An ADO.NET `NULL` read through `ToString()` is the empty string.
  - A `DBNull` parameter in `WHERE col = @p` matches no row. The operator-id lookups pass a missing personnel number this way and find nothing.
  - The lookups by card and by personnel number set their parameter to a null reference instead. ADO.NET then does not send the parameter, the statement fails with an SQL error, and the lookup returns its `SpecificError` record.

## Model

| member | source | states |
|---|---|---|
| Clock.Date | InspectionWorkApp/MainWindow.xaml.cs:870 | `t.Date` is the midnight at or before `t`, less than a day before it |
| Clock.Hour | InspectionWorkApp/MainWindow.xaml.cs:872-882 | `t.Hour` is in 0..23, and `t` lies in that hour of its day |
| Clock.ShiftStartWindow | InspectionWorkApp/MainWindow.xaml.cs:869-883 | the shift start falls on 08:00 or 20:00, and `shiftStart <= now < shiftStart + 12h` |
| Clock.ShiftStartUnique | InspectionWorkApp/MainWindow.xaml.cs:869-883 | the shift start is the one and only 08:00/20:00 boundary at most 12h before `now` (both directions) |
| Clock.SameShift | InspectionWorkApp/MainWindow.xaml.cs:1157 | every moment of a shift has the same shift start, so the four computation sites agree within a shift |
| Clock.ShiftStartIdempotent | InspectionWorkApp/MainWindow.xaml.cs:1384-1386 | the shift start of a shift start is itself |
| Calendar.DaysBeforeMonth | InspectionWorkApp/Converters/DateTimeConverter.cs:17 | the days before a month lie in 0..366 |
| Calendar.MonthOf | InspectionWorkApp/Converters/DateTimeConverter.cs:17 | the month found contains the day of the year |
| Calendar.SplitYears | InspectionWorkApp/Converters/DateTimeConverter.cs:17 | a day count splits exactly into 400-, 100- and 4-year cycles, years and a day of the year within that year's length |
| Calendar.SplitLeap | InspectionWorkApp/Converters/DateTimeConverter.cs:17 | the fourth year of an uninterrupted cycle is a Gregorian leap year |
| Calendar.YearOf | InspectionWorkApp/Converters/DateTimeConverter.cs:17 | the year of a split is at least 1, and it is a leap year exactly when the split allows a 366th day |
| Calendar.MonthAndDay | InspectionWorkApp/Converters/DateTimeConverter.cs:17 | a day of the year becomes a valid month and day of that month |
| Calendar.CivilFromDays | InspectionWorkApp/Converters/DateTimeConverter.cs:17 | every day count is a valid calendar date; `DaysOfCivil` and `CivilOfDays` tie it to the day number both ways |
| Calendar.DaysOfCivil | InspectionWorkApp/Converters/DateTimeConverter.cs:17 | counting the days back from the year, month and day of a day number's date gives that day number |
| Calendar.CivilOfDays | InspectionWorkApp/Converters/DateTimeConverter.cs:17 | every valid date is the date of its own day number, so dates and day numbers correspond one to one |
| Calendar.CivilYearInRange | InspectionWorkApp/Converters/DateTimeConverter.cs:17 | every `DateTime` falls in a year of at most four digits |
| Calendar.Padded | InspectionWorkApp/Converters/DateTimeConverter.cs:17 | a zero-padded field has exactly its width, all digits, and the digits spell the number modulo 10 to the width |
| Calendar.FormatShape | InspectionWorkApp/Converters/DateTimeConverter.cs:17-20 | `dd.MM.yyyy HH:mm` gives 16 characters with the separators in place, and its fields spell the day, month and year of the moment's date and its hour and minute |
| Calendar.FormatNamesMinute | InspectionWorkApp/Converters/DateTimeConverter.cs:17-20 | the text names a valid date whose day number is the moment's day, and a time of day within the minute before the moment |
| Calendar.SentinelDate | InspectionWorkApp/MainWindow.xaml.cs:36 | the "not executed" sentinel falls on 1900-01-01, and the SQL minimum used at AdminWindow.xaml.cs:301 falls on 1753-01-01 |
| Records.FindWork | InspectionWorkApp/MainWindow.xaml.cs:886-891 | the work found has the id; none is found iff no work has it |
| Records.FindSector | InspectionWorkApp/ReportWindow.xaml.cs:34 | the sector found has the id; none is found iff no sector has it |
| Records.FindFrequency | InspectionWorkApp/MainWindow.xaml.cs:886-891 | the frequency found has the id; none is found iff no row has it |
| Records.FindWorkType | InspectionWorkApp/MainWindow.xaml.cs:886-891 | the work type found has the id; none is found iff no row has it |
| Records.FindAssignment | InspectionWorkApp/MainWindow.xaml.cs:1190-1192 | the assignment found has the id; none is found iff no row has it |
| Records.HasAssignmentForAt | InspectionWorkApp/GenerateAssignmentsJob.cs:71-76 | the (WorkId, SectorId) lookup succeeds iff some row carries the pair |
| Records.HasAssignmentForAppend | InspectionWorkApp/AdminWindow.xaml.cs:84-89 | looking up in a grown table is looking up in either part |
| Store.MissingSectorsIds | InspectionWorkApp/AdminWindow.xaml.cs:82-90 | every sector the fill visits is a listed sector that has no assignment of the work |
| Store.MissingSectorsHas | InspectionWorkApp/AdminWindow.xaml.cs:82-90 | every listed sector lacking the work is visited |
| Store.MissingSectorsDistinct | InspectionWorkApp/AdminWindow.xaml.cs:163-170 | with distinct sector ids no sector is filled twice |
| Store.MissingSectorsCovered | InspectionWorkApp/GenerateAssignmentsJob.cs:71-76 | a work already linked to every sector is missing none |
| Store.FillRows | InspectionWorkApp/AdminWindow.xaml.cs:91-100 | each created assignment has the chosen work, frequency, role and type, IsCanceled false and LastExecTime null |
| Store.Placeholders | InspectionWorkApp/AdminWindow.xaml.cs:105-117 | one placeholder per created assignment, in order: id, assignment, sentinel execution time, status 2, no operator, the due moment |
| Store.FillOutcome | InspectionWorkApp/DBContext.cs:96-103 | after a fill, assignment ids and (WorkId, SectorId) pairs stay unique, ids stay below the counter, and every sector has the work |
| Store.FillKeepsIdsUnique | InspectionWorkApp/DBContext.cs:96-103 | rows numbered above every existing id keep the ids unique |
| Store.FillKeepsPairsUnique | InspectionWorkApp/DBContext.cs:99-100 | the fill keeps the unique index on (WorkId, SectorId) |
| Store.FillCoversSectors | InspectionWorkApp/AdminWindow.xaml.cs:82-118 | after the fill every listed sector has an assignment of the work |
| Store.FillKeepsOtherWorks | InspectionWorkApp/GenerateAssignmentsJob.cs:69-90 | a fill for one work changes no lookup of another work |
| Store.FillWorkBelow | InspectionWorkApp/DBContext.cs:96-103 | a fill keeps every work reference below the work counter |
| Store.PlaceholderIds | InspectionWorkApp/AdminWindow.xaml.cs:186-198 | the placeholders take fresh ids above every existing execution |
| Store.FillStep | InspectionWorkApp/AdminWindow.xaml.cs:163-199 | one sector of the fill loop extends the fill and the placeholders exactly by that sector when it was missing |
| Store.SetLastExec | InspectionWorkApp/MainWindow.xaml.cs:1190-1196 | only the first row with the id changes, and only its LastExecTime, which becomes `t`; an unknown id changes nothing |
| Store.SetLastExecKeepsKeys | InspectionWorkApp/DBContext.cs:96-103 | setting a last execution time keeps every key unique and bounded |
| Store.LastExecChangeKeepsKeys | InspectionWorkApp/GenerateTasksJob.cs:72-75 | changing only last execution times keeps every key unique and bounded |
| Store.Db.constructor | InspectionWorkApp/DBContext.cs:96-103 | an empty store satisfies the key invariants |
| Store.Db.SaveChanges | InspectionWorkApp/GenerateTasksJob.cs:78 | the tracked assignments and executions are written back, keeping the invariants |
| Store.Db.InsertWork | InspectionWorkApp/AdminWindow.xaml.cs:68-73 | the work row is appended with the next identity |
| Store.Db.ClearAssignments | InspectionWorkApp/AdminWindow.xaml.cs:259-263 | both the execution and the assignment tables end empty |
| Store.Db.InsertExecution | InspectionWorkApp/AdminWindow.xaml.cs:309-317 | the execution is appended with the next identity |
| Store.Db.RecordExecution | InspectionWorkApp/MainWindow.xaml.cs:1179-1198 | the execution is appended and the assignment's LastExecTime becomes the given moment, nothing else changes |
| Store.Db.AddMissingAssignments | InspectionWorkApp/AdminWindow.xaml.cs:163-205 | exactly the sectors lacking the work get an assignment, in the order the sectors are read (table order, see "## Left out"); the count equals their number; with KO and seeding each gets one placeholder due tomorrow 08:00; afterwards every sector has the work |
| TaskResolver.DueTasks | InspectionWorkApp/MainWindow.xaml.cs:963-972 | every row is "Требуется выполнить!", without an execution time, and unprocessed |
| TaskResolver.DueTasksMembership | InspectionWorkApp/MainWindow.xaml.cs:886-982 | a row is listed iff it is the row of an assignment that is not canceled, of the role, of the sector when one is set, loaded, due (frequency 1 or nextDue ≤ now) and without an execution at the shift start |
| TaskResolver.TaskListFilters | InspectionWorkApp/MainWindow.xaml.cs:851-919 | a non-empty list implies role 1 or 2; every row stems from an active assignment of the role and sector that has no execution this shift |
| TaskResolver.EveryShiftListedUntilHandled | InspectionWorkApp/MainWindow.xaml.cs:932-959 | an every-shift assignment passing the filters is listed until handled, due at the shift start |
| TaskResolver.HandledNotListed | InspectionWorkApp/MainWindow.xaml.cs:951-959 | once an execution is recorded at the shift start, the assignment is not listed at any moment of that shift |
| TaskResolver.NextSector | InspectionWorkApp/MainWindow.xaml.cs:1360-1374 | no current sector gives none; a result is an available sector other than the current one with pending work; none iff no other available sector has pending work |
| TaskResolver.NextSectorIsFirst | InspectionWorkApp/MainWindow.xaml.cs:1364-1372 | the result is the first qualifying sector in the stored order |
| TaskResolver.TotalPages | InspectionWorkApp/MainWindow.xaml.cs:1053 | the page count is ceil(n/6): enough pages, no spare one, and 0 iff n = 0 |
| TaskResolver.PageOf | InspectionWorkApp/MainWindow.xaml.cs:1046-1051 | page p holds at most 6 rows, exactly the tasks at indices (p-1)·6 onward, and is empty iff p is past the last page |
| TaskResolver.TaskOnItsPage | InspectionWorkApp/MainWindow.xaml.cs:1044-1057 | every task appears on the page its index falls in, at its offset |
| MainWindow.CollectDueTasks | InspectionWorkApp/MainWindow.xaml.cs:926-982 | the loop builds exactly the due-task list, in the order the assignments are read (table order, see "## Left out") |
| MainWindow.Permitted | InspectionWorkApp/MainWindow.xaml.cs:359-363 | offered are exactly the sectors whose id the computer is allowed |
| MainWindow.SelectSector | InspectionWorkApp/MainWindow.xaml.cs:369-395 | the current sector is kept when offered, otherwise the first offered one, and nothing only when nothing is offered |
| MainWindow.Kiosk.constructor | InspectionWorkApp/MainWindow.xaml.cs:1044-1057 | a new kiosk shows page 1 of an empty list |
| MainWindow.Kiosk.UpdatePagedTasks | InspectionWorkApp/MainWindow.xaml.cs:1044-1057 | the grid shows the current page; the page count and the enabled state of both buttons match it |
| MainWindow.Kiosk.PrevPage | InspectionWorkApp/MainWindow.xaml.cs:1059-1066 | the page goes down only from above 1, so it never drops below 1; the grid is then refreshed |
| MainWindow.Kiosk.NextPage | InspectionWorkApp/MainWindow.xaml.cs:1068-1076 | the page goes up only below the page count; the grid is then refreshed |
| MainWindow.Kiosk.HasUnprocessedTasksForSector | InspectionWorkApp/MainWindow.xaml.cs:1378-1419 | true iff some assignment of the sector is active, of the role (any when none), due by the fail-over rule and not handled this shift |
| MainWindow.Kiosk.GetNextSectorWithTasks | InspectionWorkApp/MainWindow.xaml.cs:1360-1374 | the loop yields exactly the fail-over choice |
| MainWindow.Kiosk.LoadTasks | InspectionWorkApp/MainWindow.xaml.cs:838-1042 | the administrator gets an empty list; otherwise the due-task list with its page; a role other than 1 or 2 (or none) is shown the empty list and nothing else happens; for roles 1 and 2 an empty list with an operator moves to the next sector with work, or asks to close |
| MainWindow.Kiosk.ReloadDueList | InspectionWorkApp/MainWindow.xaml.cs:886-982 | the list becomes the due-task list of the role and sector, which is empty unless the role is 1 or 2 |
| MainWindow.Kiosk.ShowDueTasks | InspectionWorkApp/MainWindow.xaml.cs:892-1021 | after the reload, a role that sees no tasks is shown the empty list and keeps its sector and window; for roles 1 and 2 the shown, switched and close outcomes follow the emptiness of the list and the fail-over choice |
| MainWindow.Kiosk.Record | InspectionWorkApp/MainWindow.xaml.cs:1138-1197 | no operator, no operator id or an execution already due at the shift start write nothing; otherwise exactly one execution (now, shift start, status, comment) is added and LastExecTime becomes the shift start |
| MainWindow.Kiosk.RecordAndReload | InspectionWorkApp/MainWindow.xaml.cs:1168-1212 | the outcome is recorded, the list is reloaded at the time the clock is read again, and a reload in the same shift no longer holds the assignment |
| MainWindow.Kiosk.MarkTaskCompleted | InspectionWorkApp/MainWindow.xaml.cs:1132-1220 | a status-1 execution is written iff there is an operator with an id and nothing was recorded this shift; a reload in the same shift no longer lists the task |
| MainWindow.Kiosk.CancelTask | InspectionWorkApp/MainWindow.xaml.cs:1222-1312 | a status-2 execution with the reason is written under the same conditions; a reload in the same shift no longer lists the task |
| MainWindow.Kiosk.ApplySectorFilterToComboBox | InspectionWorkApp/MainWindow.xaml.cs:347-400 | without sectors nothing changes; the administrator is offered all sectors and anyone else those of the computer; the selection and CurrentSectorId follow it |
| Admin.FreshWorkMissesAll | InspectionWorkApp/AdminWindow.xaml.cs:82-90 | a new work is linked to no sector, so every sector gets an assignment |
| Admin.AddWork | InspectionWorkApp/AdminWindow.xaml.cs:51-136 | no operator or a missing field writes nothing; otherwise the work and one assignment per sector are added, plus a 08:00-tomorrow placeholder each for KO; the count is the number of sectors |
| Admin.CreateAssignment | InspectionWorkApp/AdminWindow.xaml.cs:138-217 | no operator or a missing field writes nothing; otherwise exactly the sectors lacking the work get one, with placeholders for KO; the count equals their number; afterwards every sector has the work |
| Admin.DeleteAssignments | InspectionWorkApp/AdminWindow.xaml.cs:240-275 | with an operator and a confirmation both tables end empty; otherwise nothing changes |
| Admin.ManualDue | InspectionWorkApp/AdminWindow.xaml.cs:296-307 | refused iff the text is set, not the hint, parsed and before 1753-01-01; no due date iff empty, the hint or unparsed |
| Admin.CreateTask | InspectionWorkApp/AdminWindow.xaml.cs:277-329 | with an operator and a selected assignment, unless refused, one execution is added: status 2, no operator, sentinel execution time, the manual due date |
| AssignmentJob.RoleFor | InspectionWorkApp/GenerateAssignmentsJob.cs:64 | role 1 iff the work id is 1..14, else 2 |
| AssignmentJob.WorkTypeFor | InspectionWorkApp/GenerateAssignmentsJob.cs:67 | type KO (2) iff the work id is 1..14, else 1 |
| AssignmentJob.CoveredGrows | InspectionWorkApp/GenerateAssignmentsJob.cs:69-90 | a covered work stays covered when rows are added |
| AssignmentJob.GrownByFill | InspectionWorkApp/GenerateAssignmentsJob.cs:78-87 | filling an eligible work adds only rows with its mapped frequency, rule role and type, active and never executed |
| AssignmentJob.VisitWork | InspectionWorkApp/GenerateAssignmentsJob.cs:49-61 | a work missing from the map, or whose frequency row is missing, gets nothing; otherwise it is filled |
| AssignmentJob.FillWork | InspectionWorkApp/GenerateAssignmentsJob.cs:64-90 | the handled work gets every missing sector; earlier works stay covered; no execution is created |
| AssignmentJob.FillWorkOutcome | InspectionWorkApp/GenerateAssignmentsJob.cs:69-90 | the fill of one work keeps the growth and the coverage of earlier works, and adds nothing to a covered table. Every added row is for that work and for a listed sector that had no assignment of it |
| AssignmentJob.CoveredKept | InspectionWorkApp/GenerateAssignmentsJob.cs:46-114 | works covered before a fill stay covered |
| AssignmentJob.GenerateAssignments | InspectionWorkApp/GenerateAssignmentsJob.cs:32-120 | existing rows are kept; only generated rows are added; the count equals the rows created; no execution is created; afterwards every eligible (work, sector) pair is covered; a second run creates nothing |
| TaskJob.MarkOverdue | InspectionWorkApp/GenerateTasksJob.cs:29-35 | every status-2 execution due before now becomes status 4; every other row is unchanged |
| TaskJob.Touched | InspectionWorkApp/GenerateTasksJob.cs:72-75 | only LastExecTime may change, and it changes exactly for a due, never-executed assignment, which gets today's midnight; a set LastExecTime is never changed |
| TaskJob.PlaceholdersFor | InspectionWorkApp/GenerateTasksJob.cs:60-71 | one placeholder per seeded assignment, in order |
| TaskJob.SeedIdsMembership | InspectionWorkApp/GenerateTasksJob.cs:38-71 | an assignment id is seeded iff some active KO assignment with it is due by today and has no 08:00-today placeholder |
| TaskJob.SeedIdsDistinct | InspectionWorkApp/GenerateTasksJob.cs:44-77 | no assignment is seeded twice in a run |
| TaskJob.SeedStep | InspectionWorkApp/GenerateTasksJob.cs:52-71 | one assignment of the loop adds its placeholder exactly when it should be seeded |
| TaskJob.TouchStep | InspectionWorkApp/GenerateTasksJob.cs:72-75 | one assignment of the loop is touched and no other row changes |
| TaskJob.SeedKo | InspectionWorkApp/GenerateTasksJob.cs:44-77 | the loop leaves the touched rows and appends exactly the placeholders of the seeded ids |
| TaskJob.RunIdsBelow | InspectionWorkApp/GenerateTasksJob.cs:60-78 | the new placeholders take fresh ids after the old executions |
| TaskJob.GenerateTasks | InspectionWorkApp/GenerateTasksJob.cs:29-78 | overdue rows are marked, the rest keep their status; one 08:00-today placeholder per seeded assignment is appended; only never-executed due assignments get a LastExecTime |
| TaskJob.SeedOnce | InspectionWorkApp/GenerateTasksJob.cs:52-71 | an assignment is seeded iff it should be, and at most once |
| Report.ShiftTypeName | InspectionWorkApp/ReportWindow.xaml.cs:62 | "Не указано" iff no due moment; "Дневная" iff due at hour 8; otherwise "Ночная" |
| Report.StatusName | InspectionWorkApp/ReportWindow.xaml.cs:64 | 1 gives "Выполнена", 2 gives "Не выполнена", anything else "Неизвестно" (each iff) |
| Report.ExecutionTimeDisplay | InspectionWorkApp/ReportWindow.xaml.cs:66 | "Не выполнено" iff the execution time is 1900-01-01 |
| Report.FindOperator | InspectionWorkApp/ReportWindow.xaml.cs:36 | the operator found has the id; none is found iff no row has it |
| Report.OperatorName | InspectionWorkApp/ReportWindow.xaml.cs:67 | the operator's FIO when there is one, otherwise "Не назначен" |
| Report.Rows | InspectionWorkApp/ReportWindow.xaml.cs:57-69 | one report row per kept execution, in order |
| Report.LoadReports | InspectionWorkApp/ReportWindow.xaml.cs:30-72 | as many rows as executions kept |
| Report.KeptCount | InspectionWorkApp/ReportWindow.xaml.cs:32-55 | an execution is kept as often as it is stored when it joins and passes the filter, otherwise never |
| Report.KeptFrom | InspectionWorkApp/ReportWindow.xaml.cs:32-55 | every kept execution is stored, joins and passes |
| Report.ReportsShowKept | InspectionWorkApp/ReportWindow.xaml.cs:30-72 | every stored execution that joins and passes has its row shown |
| Report.ReportsShowOnlyKept | InspectionWorkApp/ReportWindow.xaml.cs:30-72 | every row shown is that of a stored execution that joins and passes |
| Report.NoFilterKeepsAll | InspectionWorkApp/ReportWindow.xaml.cs:32-37 | without filters every joined execution appears exactly as often as stored |
| Report.FilteredOfUnfiltered | InspectionWorkApp/ReportWindow.xaml.cs:39-55 | filtering the unfiltered result gives the filtered one: filters combine by conjunction, and the result is a subsequence |
| Report.FilterMeaning | InspectionWorkApp/ReportWindow.xaml.cs:39-49 | the date filter keeps exactly the executions due on that day (none without a due moment); the sector filter those of the sector |
| Report.DateOfDayMoment | InspectionWorkApp/ReportWindow.xaml.cs:41-43 | a moment is in [day, day+1) iff its date is that day |
| CardReader.FirstNewline | InspectionWorkApp/Controllers/COMController.cs:104 | `IndexOf('\n')` is the first line feed |
| CardReader.SplitLines | InspectionWorkApp/Controllers/COMController.cs:104-112 | the remainder holds no line feed |
| CardReader.SplitConserves | InspectionWorkApp/Controllers/COMController.cs:104-112 | the raw lines, each followed by '\n', then the remainder, are exactly the split text |
| CardReader.SplitCount | InspectionWorkApp/Controllers/COMController.cs:104-109 | the number of lines equals the number of line feeds |
| CardReader.CountAfterClean | InspectionWorkApp/Controllers/COMController.cs:99-100 | a buffer without line feeds adds none |
| CardReader.ReceivedLineCount | InspectionWorkApp/Controllers/COMController.cs:97-113 | with a clean buffer, the lines cut equal the line feeds of the incoming text |
| CardReader.TrimStart | InspectionWorkApp/Controllers/COMController.cs:106 | a suffix that does not start with '\r' or '\n', and everything cut off before it is '\r' or '\n' |
| CardReader.TrimEnd | InspectionWorkApp/Controllers/COMController.cs:106 | a prefix that does not end with '\r' or '\n', and everything cut off after it is '\r' or '\n' |
| CardReader.Trim | InspectionWorkApp/Controllers/COMController.cs:106 | an infix of the line, everything before and after it is '\r' or '\n', and neither of its own ends is one |
| CardReader.TrimUnique | InspectionWorkApp/Controllers/COMController.cs:106 | any infix cut off at line ends only, whose own ends are no line ends (or which is empty), is what `Trim('\r', '\n')` gives |
| CardReader.TrimKeepsClean | InspectionWorkApp/Controllers/COMController.cs:106 | a line with clean ends is kept as is |
| CardReader.TrimAll | InspectionWorkApp/Controllers/COMController.cs:106-107 | each line is trimmed, order kept |
| CardReader.DigitRun | InspectionWorkApp/Controllers/COMController.cs:128 | the maximal run of digits |
| CardReader.MatchAt | InspectionWorkApp/Controllers/COMController.cs:128 | a match of `\d{1,},\d+` at a position ends after it |
| CardReader.MatchIsCardId | InspectionWorkApp/Controllers/COMController.cs:128 | a match is digits, a comma, digits, and is not followed by a digit |
| CardReader.LeftmostMatch | InspectionWorkApp/Controllers/COMController.cs:128 | the match found starts at a position where the pattern matches |
| CardReader.LeftmostIsFirst | InspectionWorkApp/Controllers/COMController.cs:128 | no earlier position matches |
| CardReader.CardMatch | InspectionWorkApp/Controllers/COMController.cs:182-184 | a non-empty match has the shape of a card id |
| CardReader.MatchAtWhenPresent | InspectionWorkApp/Controllers/COMController.cs:128 | a card id starting at a position is matched there, to its end or further |
| CardReader.CardMatchComplete | InspectionWorkApp/Controllers/COMController.cs:182-184 | a line holding a card id anywhere gets a non-empty match that starts no later than it |
| CardReader.CardMatchFound | InspectionWorkApp/Controllers/COMController.cs:182-184 | the match is non-empty exactly when some slice of the line is a card id |
| CardReader.CardIdMatchesItself | InspectionWorkApp/Controllers/COMController.cs:182-184 | a card id read alone is matched whole |
| CardReader.NoDigitNoMatch | InspectionWorkApp/Controllers/COMController.cs:182-198 | a line without digits matches nothing, so it reads as card removed |
| CardReader.Reader.constructor | InspectionWorkApp/Controllers/COMController.cs:80-85 | a new reader is idle, with an empty buffer and queue |
| CardReader.Reader.DataReceived | InspectionWorkApp/Controllers/COMController.cs:88-123 | a closed port changes nothing; otherwise the trimmed lines join the queue in order, the buffer keeps the rest without a line feed, and the queue grows by the incoming line feeds |
| CardReader.Reader.SetIsReading | InspectionWorkApp/Controllers/COMController.cs:27-70 | the same value does nothing; a change clears queue and buffer; a failed start stays idle and reports ConnectionError; a stop closes the port |
| CardReader.Reader.PortLost | InspectionWorkApp/Controllers/COMController.cs:138 | the port is closed |
| CardReader.Reader.Reconnect | InspectionWorkApp/Controllers/COMController.cs:138-163 | the loss is reported and flagged, and the port is reopened when that succeeds |
| CardReader.Reader.Poll | InspectionWorkApp/Controllers/COMController.cs:165-200 | reconnection is reported once with the remembered card and the flag cleared; a dequeued line with a card match gives Detected and remembers it, any other line gives Removed with the remembered card and forgets it |
| CardReader.CutLines | InspectionWorkApp/Controllers/COMController.cs:104-109 | the loop enqueues exactly the trimmed lines and leaves exactly the remainder |
| EmployeeDirectory.FaultResult | InspectionWorkApp/Interfaces/DataAccessLayer.cs:258-277 | an SQL failure gives SpecificError, any other UnknownError, with the message |
| EmployeeDirectory.LowerChar | InspectionWorkApp/Interfaces/DataAccessLayer.cs:375 | Latin and Cyrillic capitals become lower case; other characters are unchanged |
| EmployeeDirectory.ToLower | InspectionWorkApp/Interfaces/DataAccessLayer.cs:375 | lower-cases every character, keeping the length |
| EmployeeDirectory.ToLowerIdempotent | InspectionWorkApp/Interfaces/DataAccessLayer.cs:375 | lower-casing twice is lower-casing once |
| EmployeeDirectory.DetermineRole | InspectionWorkApp/Interfaces/DataAccessLayer.cs:367-395 | none iff the position is null or empty; 2 iff it contains "слесарь"; 4 iff not and it names an engineer, master, chief or deputy; 1 otherwise |
| EmployeeDirectory.RoleIgnoresCase | InspectionWorkApp/Interfaces/DataAccessLayer.cs:375-382 | the role does not depend on letter case |
| EmployeeDirectory.FitterExample | InspectionWorkApp/Interfaces/DataAccessLayer.cs:369-380 | a fitter's title gives role 2, and an empty one none |
| EmployeeDirectory.ForemanExample | InspectionWorkApp/Interfaces/DataAccessLayer.cs:381-386 | a senior master gives role 4 |
| EmployeeDirectory.FirstWithTabNumber | InspectionWorkApp/Interfaces/DataAccessLayer.cs:24-80 | the row found has the personnel number; none iff it is null or on no row |
| EmployeeDirectory.FirstWithCard | InspectionWorkApp/Interfaces/DataAccessLayer.cs:212 | the row found has the card; none iff it is null or on no row |
| EmployeeDirectory.FirstWithCardSmallest | InspectionWorkApp/Interfaces/DataAccessLayer.cs:212 | with ascending ids the row found is the one with the least id (`TOP 1 … order by id`) |
| EmployeeDirectory.ReadRow | InspectionWorkApp/Interfaces/DataAccessLayer.cs:216-231 | a read row is ReadingSuccessful with no error text; card, personnel number, name, department and position are the columns' text (NULL reads as ""), and TORoleId is the stored one |
| EmployeeDirectory.ByPersonnelNumber | InspectionWorkApp/Interfaces/DataAccessLayer.cs:24-80 | a failure gives its error record, and so does a null number (SpecificError, the parameter is not supplied); otherwise none iff no row has the number, else the first such row read |
| EmployeeDirectory.SetColumns | InspectionWorkApp/Interfaces/DataAccessLayer.cs:158-168 | an UPDATE never touches the id, RoleId, StatId or TabNumber |
| EmployeeDirectory.UpdateWhereTab | InspectionWorkApp/Interfaces/DataAccessLayer.cs:161-168 | exactly the rows with the personnel number are updated |
| EmployeeDirectory.UpdateRoleWhereCard | InspectionWorkApp/Interfaces/DataAccessLayer.cs:397-412 | exactly the rows with the card get the role |
| EmployeeDirectory.UpdateSetColumns | InspectionWorkApp/Interfaces/DataAccessLayer.cs:124-157 | idCard, FIO and Department are set iff each differs; EmployName and TORoleId together iff the position or the derived role differs; empty iff nothing differs |
| EmployeeDirectory.UpdateSetMembers | InspectionWorkApp/Interfaces/DataAccessLayer.cs:124-157 | a column with its value is in the set iff that comparison calls for it |
| EmployeeDirectory.BuildUpdateSet | InspectionWorkApp/Interfaces/DataAccessLayer.cs:124-157 | the incremental build yields exactly the update set |
| EmployeeDirectory.CardLookup | InspectionWorkApp/Interfaces/DataAccessLayer.cs:204-278 | never null: a failure gives SpecificError or UnknownError, and a null card gives SpecificError; an unknown card gives EmployeeNotFound with the card; a known one gives ReadingSuccessful with the row's columns and a role derived when none is stored |
| EmployeeDirectory.UnknownCardHasNoNumber | InspectionWorkApp/Interfaces/DataAccessLayer.cs:250-256 | an unknown card or a failure yields no personnel number, hence no operator id |
| EmployeeDirectory.OperatorIdOf | InspectionWorkApp/Interfaces/DataAccessLayer.cs:320-349 | an id is found iff a row carries the personnel number, and it is that row's id |
| EmployeeDirectory.SameNumbersSameIds | InspectionWorkApp/Interfaces/DataAccessLayer.cs:326 | the operator id lookup depends only on ids and personnel numbers |
| EmployeeDirectory.RoleUpdateKeepsOperatorIds | InspectionWorkApp/Interfaces/DataAccessLayer.cs:397-412 | the role write-back changes no operator id |
| EmployeeDirectory.SavedIsOnFile | InspectionWorkApp/Interfaces/DataAccessLayer.cs:293-305 | after an insert the personnel number is on file with an operator id |
| EmployeeDirectory.RolePersisted | InspectionWorkApp/Interfaces/DataAccessLayer.cs:236-243 | after the write-back the card's row carries the derived role |
| EmployeeDirectory.SkudTable.constructor | InspectionWorkApp/Interfaces/DataAccessLayer.cs:15-23 | a new repository has an empty table |
| EmployeeDirectory.SkudTable.Insert | InspectionWorkApp/Interfaces/DataAccessLayer.cs:101-120 | the row is appended with the next identity |
| EmployeeDirectory.SkudTable.SyncEmployee | InspectionWorkApp/Interfaces/DataAccessLayer.cs:81-203 | an HR error is returned as is; a lookup error, including that of a null number, returns the error record and writes nothing; a new number is inserted with the derived role and code 4; an existing one is updated only by the update set and gets `derived ?? existing.TORoleId`, code 4 |
| EmployeeDirectory.LookupRows | InspectionWorkApp/Interfaces/DataAccessLayer.cs:204-278 | the table after a card lookup keeps its length and every operator id |
| EmployeeDirectory.SkudTable.GetEmployee | InspectionWorkApp/Interfaces/DataAccessLayer.cs:204-278 | the result is the card lookup (never null, SpecificError for a null card); the table changes only by writing back a derived role of a found row that had none |
| EmployeeDirectory.SkudTable.SaveEmployee | InspectionWorkApp/Interfaces/DataAccessLayer.cs:280-318 | a number already on file inserts nothing; otherwise one row is inserted; a failure is rethrown with the table unchanged |
| EmployeeDirectory.SkudTable.GetOperatorId | InspectionWorkApp/Interfaces/DataAccessLayer.cs:320-349 | the id of the personnel number, or the failure rethrown |
| Operators.Dispatch | InspectionWorkApp/Services/OperatorService.cs:46-71 | Detected with a non-empty card signs in; Removed or None signs out; anything else is ignored |
| Operators.PortFailuresSignOut | InspectionWorkApp/Services/OperatorService.cs:61-65 | both port-failure events sign out; ReaderConnecting is ignored |
| Operators.SignedIn | InspectionWorkApp/Services/OperatorService.cs:79-105 | a sign-in keeps the record of the card lookup iff its personnel number has an operator id |
| Operators.SignedInOnFile | InspectionWorkApp/Services/OperatorService.cs:79-105 | a signed-in operator was read without failure from a card on file, and its number is on file |
| Operators.UnknownCardSignsNobody | InspectionWorkApp/Services/OperatorService.cs:99-105 | an unknown card or a failed lookup signs nobody in |
| Operators.OperatorService.constructor | InspectionWorkApp/Services/OperatorService.cs:31-44 | nobody is signed in and nothing was notified |
| Operators.OperatorService.SetCurrentOperator | InspectionWorkApp/Services/OperatorService.cs:20-29 | every assignment, even of the same value, notifies once with the new value |
| Operators.OperatorService.GetOperatorId | InspectionWorkApp/Services/OperatorService.cs:129-140 | the operator id, or none when the lookup fails |
| Operators.OperatorService.InitializeOperator | InspectionWorkApp/Services/OperatorService.cs:142-154 | the current operator becomes the card lookup, with one notification; the table becomes `LookupRows` of the old one, the derived role written back, and operator ids are unchanged |
| Operators.OperatorService.FetchAndSaveFrom1C | InspectionWorkApp/Services/OperatorService.cs:156-176 | a record with code 0 and a personnel number is saved and returned: the table gains its row with the derived role unless the number is on file; anything else, or a failure, returns none without saving |
| Operators.OperatorService.Authenticate | InspectionWorkApp/Services/OperatorService.cs:73-127 | a sign-out without an operator does nothing; with one it ends with none; a sign-in keeps the operator only when its id is found, else notifies none, and leaves the table with the role written back (`LookupRows`) |
| Operators.OperatorService.OnReaderEvent | InspectionWorkApp/Services/OperatorService.cs:46-71 | ignored events change nothing; sign-out events end with nobody signed in; sign-ins end with the signed-in result for the card, its notifications, and the table with the role written back (`LookupRows`) |
| DateConverter.Convert | InspectionWorkApp/Converters/DateTimeConverter.cs:10-23 | a task with an execution time other than 1900-01-01 shows it; any other task shows its due moment; anything else gives "" |
| DateConverter.ConvertLayout | InspectionWorkApp/Converters/DateTimeConverter.cs:15-20 | the text of a task is always 16 characters in the `dd.MM.yyyy HH:mm` layout |
| DateConverter.ListedShowDue | InspectionWorkApp/Converters/DateTimeConverter.cs:20 | every row of the operator's list shows its due moment |
| Seeding.SeededMeaning | InspectionWorkApp/DataInitializer.cs:19-59 | a seeding step leaves the table non-empty, leaves a non-empty table alone, and repeating it changes nothing |
| Seeding.Initialize | InspectionWorkApp/DataInitializer.cs:16-60 | each of the four tables gets its fixed seed iff it was empty; afterwards all four are non-empty |
| Seeding.SeededFrequenciesCoverMap | InspectionWorkApp/DataInitializer.cs:39-49 | after seeding an empty table every mapped work finds its frequency row |
| Seeding.SeededIntervalsAreZero | InspectionWorkApp/DataInitializer.cs:39-49 | seeded frequencies count as due after 7 days for id 1 and after 0 days for the others |

## Left out

- User interface: WPF windows, bindings, message boxes, keyboard hooks, the taskbar, timers, the database and reader status texts and logging are not modelled.
- Concurrency: the `Dispatcher`, `AsyncLock`, the single-flight flag of the task load, the recursive reload after a sector switch (the switch is one step), the `ConcurrentQueue`, the reader's background task and its 50 ms pause are not modelled.
- Transactions, execution strategies and retries: every store operation is atomic. The duplicate check runs before the transaction, so the race between two kiosks is not modelled.
- `DateTime.TryParse` and culture-dependent formatting: the parsed value is an input. The time separator is taken as ':'. Sub-second precision and `DateTime` overflow are not modelled.
- The HR system (1C) over HTTP, and the parsing of its reply: the reply is a parameter.
- Serial-port plumbing (open, close, dispose, the delays of the reconnect loop, cancellation) is not modelled. An exception inside `DataReceived` and the unknown-error branch of the reading task are not modelled.
- `CardReader.CardMatch`: `\d` is taken as the ASCII digits, while .NET matches every Unicode decimal digit.
- `EmployeeDirectory.ToLower`: lower-cases Latin and Cyrillic letters only, not every Unicode capital.
- `EmployeeDirectory.SkudTable.GetEmployee`: a failure of the role write-back after a successful read is not separated from a failure before the read. Either failure yields the error record and leaves the table unchanged.
- `EmployeeDirectory.SkudTable.SyncEmployee`: a failure of the insert or the update is modelled as a failure before any statement, with the same error record and an unchanged table.
- `EmployeeDirectory.ByPersonnelNumber`: `TOP 1` without `ORDER BY` is taken as the first row in table order.
- Row order: every query without `ORDER BY` is read in table order, the order in which the rows were inserted. SQL Server does not promise that order. This covers `TaskResolver.DueTasks`, `MainWindow.CollectDueTasks`, `TaskResolver.NextSector`, `Store.Db.AddMissingAssignments`, `AssignmentJob.GenerateAssignments`, `Report.Kept` and `EmployeeDirectory.OperatorIdOf`.
  - The order decides which sector the failover moves to.
  - It decides which page a task lands on.
  - It decides which ids the generated rows get.
  - It decides which id `OperatorIdOf` returns when a personnel number is on file twice.
  - Only the lookup by card has an `ORDER BY` (`order by id asc`), and `EmployeeDirectory.FirstWithCardSmallest` states it.
- Clock reads: each operation reads the clock once, and that moment is its `now`, with the day taken from it.
  - `TaskJob.GenerateTasks` reads `DateTime.Today` and, for the overdue marks, `DateTime.Now` separately (GenerateTasksJob.cs lines 25 and 30).
  - The failover loop reads `DateTime.Now` afresh for every sector it tries (`HasUnprocessedTasksForSector`, MainWindow.xaml.cs line 1382).
  - A run that crosses midnight or a shift boundary is not modelled with those separate readings.
  - The reload after a record is the one place where a second reading, `reloadAt`, is modelled.
- `EmployeeDirectory.NotSupplied`: the text of the SQL error for a parameter that is not supplied is a fixed message; the server's text, which quotes the whole statement, is not modelled.
- `EmployeeDirectory.FirstWithCard`, `FirstWithTabNumber`, `UpdateWhereTab` and `UpdateRoleWhereCard` compare keys as exact strings. SQL Server ignores trailing spaces and follows the column collation, which is usually case-insensitive; neither is modelled.
- The foreign keys of the database schema (InspectionWorkApp/DBContext.cs) are not modelled.
  - An assignment refers to its work, frequency, role, work type and sector.
  - An execution refers to its assignment, its status in `TOStatuses` and its operator. The status table is never seeded.
  - `MainWindow.Kiosk.Record`, `Admin.CreateTask`, `Admin.CreateAssignment` and the jobs insert rows without checking these references, where the database would reject the insert.
- The parameters `authTime`, `authFrom` and `authTo` of the operator service are unused by the code and are not modelled.
- App start-up wiring (the DI container, configuration, Quartz scheduling and the exchange table) is not modelled. The only scheduled job is the assignment generator.
- The failure-reason dialog is not modelled: its comment is an input of `CancelTask`.
- The admin window's other buttons (generate assignments, delete work) and the reload of its combo boxes are not modelled.
- The `nextDue` computation in `GenerateAssignmentsJob` (lines 93-101) is not modelled: its result is never used. The KO seeding there is commented out and is not modelled either.
- `Calendar.Format`: the text of a `DateTime` is computed by the model's own Gregorian calendar, not by .NET's formatting.
