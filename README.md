# Student timetable generator — the schedule-combination engine

The repository helps a student build a weekly timetable. It reads the
class offering from spreadsheets and keeps the rows of the chosen courses
that still have a free seat on the chosen campus. It groups each course's
rows into sections (`Nº Clase`) and enumerates every choice of one section
per course in which no two chosen sections have clashing meetings. The
student's shift (morning, evening or mixed) then limits the hours, and
the surviving timetables can be browsed with "previous" and "next"
buttons. The engine appears twice: in a notebook (`horario_estudiante.py`)
and in a web app (`app_corregida.py`).

The model is split the way the engine is:

- `clock.dfy` — times of day as (hour, minute), minutes since midnight,
  weekdays and their calendar column (`hora_a_minutos`, `mapa_dias`).
- `meetings.dfy` — the long-form offering row, sections, and the clash
  test `clases_se_solan`, on half-open intervals.
- `text.dfy`, `candidates.dfy` — the selection, seat and campus filters
  on room labels, grouping a course's rows by section number, and the
  loop that builds `opciones_por_materia`.
- `combinations.dfy` — the Cartesian product in `itertools.product`
  order and the clash-free filter. This is the reference the two
  generators are proved against.
- `window.dfy` — the shift window and the window post-filter.
- `reshape.dfy` — the wide-to-long reshape done when the spreadsheets
  are loaded.
- `display.dfy` — the occupancy colour, the table projection and the
  calendar block of each meeting.
- `browser.dfy` — the result list and cyclic cursor, as a `Session`
  class. It plays the part of the notebook globals and of the app's
  `global_state`.
- `engine.dfy` — the whole "generate" computation as one function, with
  soundness and completeness lemmas.
- `notebook.dfy`, `app.dfy` — each front end's own generator loop,
  "generate" handler and navigation handlers, proved against the shared
  definitions.

Behaviours of the code worth knowing:

- A selected course with no surviving rows is dropped from the product;
  generation is not aborted.
- The seat and campus filters work on meeting rows, not on sections. A
  section whose meetings are in rooms of different campuses is kept with
  only the meetings the campus rule admits.
- The web app has no guard against an empty selection. Then, and
  whenever every selected course lost its rows, concatenating the empty
  product tuple raises. The model returns `Raised` and leaves the session
  untouched.
- The notebook overwrites its result list before it finds out that the
  list is empty, and it keeps the old cursor. The web app changes nothing
  on an empty result.
- The notebook's generator hands whole section tables to the clash test,
  which cannot compare them and raises. It therefore produces results
  only when exactly one selected course kept rows (see Findings).
- The web app raises when generation is asked for before any file was
  loaded, or with no shift chosen.
- The web app wires its navigation buttons through two names it never
  defines (app_corregida.py:196-197), so as written it stops with a
  `NameError` before launching, and `siguiente`/`anterior` are never
  connected. The model keeps both handlers.
- The Sur and Crisanto Luque campus rules can both admit one room (a
  label starting with `SUR` that also holds `SLUQ`).
- The campus filter uses pandas' `.str` accessor, which raises on a
  numeric column. When every `Salon` cell of the loaded spreadsheets is
  blank, the column is read as numbers, and choosing Chapinero, Sur or
  Crisanto Luque raises before any state changes. `Todas` still works.
  The handlers take the column's type (`Reshape.RoomColumnOf`) as input.

## Model

| member | source | states |
|---|---|---|
| Clock.ToMinutes | horario_estudiante.py:114-115 | a valid time of day maps into [0, 1440), and the minute count gives back its hour (`/ 60`) and its minute (`% 60`) |
| Clock.FromMinutes | app_corregida.py:21-22 | every minute of the day is the minute count of some time of day |
| Clock.MinutesRoundTrip | app_corregida.py:21-22 | converting a time to minutes and back returns the same time |
| Clock.MinutesOrder | horario_estudiante.py:114-115 | comparing minute counts is comparing times hour first, then minute |
| Clock.DayIndex | horario_estudiante.py:125-126 | a weekday's calendar column is its position in the Monday-to-Saturday list |
| Clock.DayIndexOfColumn | app_corregida.py:18-19 | for every column index below six, the weekday in that column has that index |
| Clock.DayIndexInjective | app_corregida.py:18-19 | two weekdays with the same column are the same day |
| Meetings.Clash | app_corregida.py:32-37 | two meetings clash iff they share a weekday, each starts before its own finish, and each starts before the other's finish |
| Meetings.ClashSymmetric | horario_estudiante.py:167-172 | the clash test does not depend on argument order |
| Meetings.ClashNeedsSameDay | app_corregida.py:33-34 | meetings on different weekdays never clash |
| Meetings.TouchingMeetingsDoNotClash | horario_estudiante.py:170-172 | a meeting ending exactly when another starts clashes with it in neither order |
| Meetings.ClashIffSharedMinute | app_corregida.py:35-37 | a clash is exactly a minute of the same weekday occupied by both half-open meetings |
| Meetings.ConflictSymmetric | app_corregida.py:45 | the section-level test "some meeting of one clashes with some meeting of the other" is symmetric |
| Text.ContainsIffOccurs | app_corregida.py:126 | the substring scan succeeds iff the marker occurs at some position of the label |
| Candidates.CampusesCoverEveryRoom | app_corregida.py:123-131 | every room is admitted by Chapinero, Sur or Crisanto Luque, and a Chapinero room by neither of the others |
| Candidates.SouthAndLuqueOverlap | app_corregida.py:123-126 | every room label starting with `SUR` and holding `SLUQ` passes both the Sur and the Crisanto Luque rule, and not the Chapinero rule |
| Candidates.SouthAndLuqueShareALabel | app_corregida.py:123-126 | such a label exists (`SUR-SLUQ-101`) |
| Candidates.SelectRows | app_corregida.py:122-131 | a row survives iff it is in the table, its course is selected, enrolled < capacity, and the campus rule admits its room (an empty room matches no marker) |
| Candidates.RowsOfCourse | app_corregida.py:145 | exactly the rows of the given course are kept |
| Candidates.RowsOfSection | horario_estudiante.py:224 | exactly the rows with the given section number are kept |
| Candidates.InsertKey | app_corregida.py:146 | inserting a key keeps the key list strictly increasing and adds exactly that key |
| Candidates.SectionKeys | horario_estudiante.py:224 | the group keys are strictly increasing and are exactly the section numbers present |
| Candidates.GroupBySection | app_corregida.py:146 | groups come in ascending section order, each non-empty and holding exactly the rows of its number, every row has its group, and there are no groups iff there are no rows |
| Candidates.CourseOptions | horario_estudiante.py:221-226 | there are never more options than selected courses, and every option is non-empty |
| Candidates.CourseOptionsShape | horario_estudiante.py:221-226 | an option exists exactly for each selected course with surviving rows, and it is that course's grouping |
| Candidates.OptionsComeFromFilteredRows | app_corregida.py:143-148 | every meeting in an option is a surviving row of a selected course, carries its section's number, and shares its course with every other meeting of the option |
| Candidates.CourseOptionsStep | app_corregida.py:144-148 | one more selected course appends its grouping to the options exactly when that grouping is non-empty |
| Candidates.CollectOptions | app_corregida.py:143-148 | the appending loop computes the options of the whole selection |
| Combinations.Spread | app_corregida.py:41 | prefixing each tail with each choice yields choices × tails tuples |
| Combinations.SpreadMembership | app_corregida.py:41 | a spread tuple is exactly a choice followed by one of the tails |
| Combinations.ProductMembership | horario_estudiante.py:176 | a product tuple is exactly one element from each factor, in factor order |
| Combinations.ProductSize | app_corregida.py:41 | the product has as many tuples as the product of the factor sizes |
| Combinations.ClashFreeMeetings | app_corregida.py:43-47 | in a clash-free tuple, no meeting of one chosen section clashes with a meeting of another, in either order |
| Combinations.Combine | app_corregida.py:51 | the concatenation holds exactly the meetings of the chosen sections |
| Combinations.KeepClashFree | horario_estudiante.py:176-178 | a combination is kept iff it concatenates some clash-free tuple, and there are no more combinations than tuples |
| Combinations.GeneratorExact | app_corregida.py:39-52 | a combination is generated iff it concatenates one section per course with no clashing pair, and there are at most as many as the product of the section counts |
| Combinations.SectionAloneIsClashFree | app_corregida.py:43-44 | a single chosen section is never compared with itself, so it is clash-free |
| Window.WindowFor | app_corregida.py:133-141 | morning is [360, 840], evening [1080, 1320], anything else [360, 1320] minutes, all within 6:00-22:00 |
| Window.KeepWithin | horario_estudiante.py:229-233 | a combination is kept iff it is in the input and every start and finish lies in the inclusive window |
| Window.KeepWithinAllFit | app_corregida.py:151-154 | a list that already fits the window passes unchanged |
| Window.KeepWithinIdempotent | app_corregida.py:151-154 | filtering twice by the same window is filtering once |
| Window.ShiftWindowsNest | horario_estudiante.py:211-219 | what fits the morning or the evening window fits the mixed one |
| Window.MorningAndEveningDisjoint | horario_estudiante.py:211-216 | no combination with a meeting fits both the morning and the evening window |
| Reshape.MeltDay | app_corregida.py:102-110 | the long rows of one weekday are exactly the named input rows flagged `Y` for it |
| Reshape.MeltDaysMembership | app_corregida.py:102-110 | a long row exists exactly for an input row and a listed weekday it is flagged on |
| Reshape.MeltMembership | app_corregida.py:101-110 | the reshape yields exactly one long row per (named input row, `Y` weekday) pair |
| Reshape.MeltDaysCons | app_corregida.py:102-108 | the rows melted from one input row are counted by its `Y` flags |
| Reshape.MeltSize | app_corregida.py:102-108 | the number of long rows equals the number of `Y` flags of named rows |
| Reshape.ZeroRowsMeltToNothing | app_corregida.py:101-108 | an empty table melts to nothing |
| Reshape.RoomColumnOf | horario_estudiante.py:16-23 | the room column is read as text exactly when some loaded row holds a label, and as numeric when every cell is blank |
| Reshape.NumericColumnMeltsToBlankRooms | app_corregida.py:102-110 | on a numeric room column, no long row carries a room label |
| Display.ColorFor | app_corregida.py:24-30 | green iff below 50, red iff above 90, gold otherwise |
| Display.ColorMonotone | horario_estudiante.py:117-123 | a higher occupancy never gets a calmer colour |
| Display.ColorOfCounts | app_corregida.py:113 | with seats available, green iff 2·enrolled < capacity and red iff 9·capacity < 10·enrolled |
| Display.BlockOf | app_corregida.py:57-62 | a meeting's block sits in its weekday's column, with top at its start and bottom at its finish, coloured by its occupancy |
| Display.NonClashingBlocksApart | horario_estudiante.py:131-143 | non-clashing meetings in one column get blocks that do not overlap |
| Display.CombinationBlocksApart | app_corregida.py:54-69 | in a generated combination, blocks of meetings from two different sections never overlap |
| Display.CalendarBlocksApart | app_corregida.py:56-69 | on a generated combination's calendar, the blocks of two meetings from different chosen sections in one column do not overlap |
| Display.TableMatchesCalendar | app_corregida.py:166-168 | the table and the calendar list the same meetings in the same order: each block's column is the row's weekday and it spans the row's start and finish |
| Browser.NextIndex | horario_estudiante.py:259 | the next index stays below the list length and wraps from the last entry to the first |
| Browser.PreviousIndex | app_corregida.py:178 | the previous index stays below the list length and wraps from the first entry to the last |
| Browser.PreviousUndoesNext | horario_estudiante.py:250-260 | "previous" undoes "next" and the other way round |
| Browser.NextTimes | horario_estudiante.py:256-260 | repeated "next" keeps the index below the list length |
| Browser.NextTimesIsShift | app_corregida.py:171-174 | up to one round, k presses of "next" move the cursor k places, wrapping once |
| Browser.NextCyclesBack | horario_estudiante.py:256-260 | n presses of "next" on a list of n entries return to the start |
| Browser.Session.constructor | horario_estudiante.py:181-182 | a fresh session has no results and index 0 |
| Browser.Session.Next | app_corregida.py:171-174 | the cursor advances cyclically and nothing else changes; with no results it stays put |
| Browser.Session.Previous | app_corregida.py:176-179 | the cursor steps back cyclically and nothing else changes; with no results it stays put |
| Browser.Session.Reset | app_corregida.py:159-160 | the result list is replaced wholesale and the cursor goes to 0 |
| Browser.Session.Current | app_corregida.py:163-169 | nothing is shown iff there are no results; otherwise entry `index + 1` of `n`, with its table and calendar blocks |
| Engine.Generate | app_corregida.py:120-161 | there is nothing to combine exactly when no selected course kept a row |
| Engine.GeneratedSound | horario_estudiante.py:196-233 | every generated timetable fits the window, uses only surviving rows of selected courses with free seats on the campus, and concatenates one section per course with no clash |
| Engine.GeneratedComplete | app_corregida.py:150-154 | every clash-free choice of one section per course that fits the window is generated |
| Notebook.FrameCombinations | horario_estudiante.py:167-179 | the generator as written returns a list exactly when there is one course factor (all factors non-empty), and then lists each section of that course on its own |
| Notebook.ProductNotEmpty | horario_estudiante.py:176 | when every course has a section, the product has a tuple |
| Notebook.SingleCourseCombinations | horario_estudiante.py:176-178 | for one course, the clash-free combinations are exactly its sections' meetings |
| Notebook.TwoCoursesRaise | horario_estudiante.py:177 | for two one-section courses on different weekdays the generator as written raises, though their combination is clash-free |
| Notebook.ValidCombinations | horario_estudiante.py:174-179 | the loop as written equals the as-written generator: it raises at the first tuple with a pair to test or at an empty tuple |
| Notebook.ValidCombinationsIntended | horario_estudiante.py:174-179 | the all-pairs loop with a per-meeting comparison returns exactly the clash-free product tuples, in product order |
| Notebook.GenerateClicked | horario_estudiante.py:184-240 | an empty selection changes nothing; a named campus on a numeric room column raises before the state is touched; unless exactly one selected course kept rows the generator raises before the state is touched; otherwise the result list becomes that course's sections that fit the window, an empty list keeps the cursor, and a non-empty one resets it to 0 and shows the first entry |
| Notebook.GenerateClickedIntended | horario_estudiante.py:184-240 | with the per-meeting generator: an empty selection changes nothing; a named campus on a numeric room column raises before the state is touched; when no course kept a row it raises before touching the state; otherwise the result list becomes the whole generation, an empty list keeps the cursor, and a non-empty one resets it to 0 and shows the first entry |
| Notebook.PreviousClicked | horario_estudiante.py:250-254 | with results the cursor steps back cyclically and the entry is shown; without, nothing happens |
| Notebook.NextClicked | horario_estudiante.py:256-260 | with results the cursor advances cyclically and the entry is shown; without, nothing happens |
| App.HasOverlap | app_corregida.py:42-49 | the pair scan with early exits reports an overlap iff some pair i < j of chosen sections conflicts |
| App.ValidCombinations | app_corregida.py:39-52 | the early-exit loop returns exactly the clash-free product tuples, in product order |
| App.KeepWithinWindow | app_corregida.py:151-154 | the appending loop computes the window filter |
| App.GenerateCombinations | app_corregida.py:120-161 | raises before touching the state when no table was loaded, a named campus meets a numeric room column, no shift is chosen, or nothing is left to combine (an empty selection included); on an empty result leaves the state unchanged; otherwise replaces the list, resets the cursor and shows the first entry |
| App.NextPressed | app_corregida.py:171-174 | the cursor advances cyclically when there are results, and the current view (or the empty state) is returned |
| App.PreviousPressed | app_corregida.py:176-179 | the cursor steps back cyclically when there are results, and the current view (or the empty state) is returned |

## Left out

- Spreadsheet loading (`read_excel`, concatenating files, listing the
  folder) is I/O; the model starts from rows already read.
- Parsing `%H:%M` strings is a library call. Times arrive as valid
  (hour, minute) pairs.
- Widgets, gradio wiring and drawing are left out: axes, ticks, labels,
  text and figures. So are the course-name search box and the summary
  table shown after loading. The calendar is modelled only through its
  block arithmetic and colour.
- The shift and campus radio labels are modelled as enumerations.
  Matching `Mañana`/`Noche` inside a label is not modelled. An unset
  shift in the web app is `None` and raises; an unset or unknown campus
  behaves like `Todas`.
- `app.py` (a single-day timeline page) is not part of this model.
- Section numbers are assumed present: `groupby('Nº Clase')` drops rows
  whose section cell is empty, and a row here always has a section number.
- `pd.to_numeric(..., errors='coerce')` is left out: enrolment and
  capacity are integers, so no NaN comparison drops rows silently.
- Display.RowColor: occupancy is exact rational arithmetic and gives a
  colour only for a positive capacity. The float division and the colour
  of NaN or infinite percentages are not modelled.
- Notebook.ValidCombinations: the exception raised when two section
  frames reach the clash test is the outcome `Raises`; which pandas error
  it is, and where it propagates, is not modelled.
- Room labels are text or empty. A `Salon` column holding only numbers is
  also read as numbers and raises in the same way. So does a text column
  whose surviving cells are all numbers. Numeric labels are not modelled.
- App.GenerateCombinations, Notebook.GenerateClicked: each exception
  (empty concatenation, missing table, unset shift, `.str` on a numeric
  room column, frame comparison) is
  the outcome `Raised`. Its message and
  its propagation out of the handler are not modelled.
- Ordering inside a concatenated timetable is modelled (sections in
  course order, meetings in table order). pandas index labels are not.

## Findings

| source | as written | input that shows it | evidently intended | confidence | as-written member | corrected member |
|---|---|---|---|---|---|---|
| horario_estudiante.py:177 | each pair test passes two whole section tables to the clash test, whose weekday comparison of two columns raises, so every tuple with two sections raises | courses A (one section, Monday 9:00-10:00) and B (one section, Tuesday 9:00-10:00): it raises, though A+B is clash-free (`Notebook.TwoCoursesRaise`) | compare the two sections meeting by meeting, as app_corregida.py:43-47 does | high; not executed | Notebook.ValidCombinations | Notebook.ValidCombinationsIntended |
