# SICBO draw generator — a Dafny model

The SICBO service draws lottery-style results on a fixed timetable. A
background scheduler fires 144 times a day, at minutes 00, 10, 20, 30, 40 and 50
of every hour. Each firing runs `generate_numbers_for_time(hour, minute)`.

That run builds the draw code `YYYYMMDD/HHMM` from today's date and the trigger
time. It then visits the nine markets `M P T S H E B K W` in order. For every
market that has no row under that code yet, it:

- samples six distinct numbers from 1..99;
- formats each as two digits;
- pops one at a random index as the `head`;
- joins the other five with commas as `specials`.

The new rows are committed together. The `draw_results` table holds at most one
row per (code, market) pair. An admin page lists the 100 most recent rows.

The model is split into these modules:

- `Digits`: the `{n:02d}` and `%Y` zero-padded formatting, together with
  reading digit strings back into numbers.
- `DrawCode`: the draw code and its parser.
- `DrawRecord`: turns one sample into the `head` and `specials` columns.
  It includes `list.pop` and `",".join`, and `str.split` as the partner of join.
- `Store`: the table as a class `DrawTable`, whose field is a map from
  (code, market) to record. It holds the generation run as an imperative loop
  that builds a session, then a commit. Beside it, the function `Run` states the
  table after a run, and lemmas state what a run writes and what it leaves
  alone.
- `Scheduler`: the two nested registration loops and the scheduler's job store
  keyed by job id. In that store, `replace_existing=True` replaces any earlier
  job with the same id.
- `Listing`: the admin query `ORDER BY code DESC, market ASC LIMIT 100`,
  specified as a sort followed by a take.

Randomness and the clock are inputs. `samples[i]` is what `random.sample` and
`random.randint` returned for market `Markets[i]`; it is unused when that market already has a row. The date is passed in as a
`Date`.

## Model

| member | source | states |
|---|---|---|
| Digits.PadDigits | app.py:38 | `n` zero-padded to `w` digits is exactly `w` decimal digits |
| Digits.Pad2 | app.py:38 | `{n:02d}` for 0 <= n < 100 is exactly two decimal digits; PadDigitsRoundTrip and PadDigitsInjective give it its meaning at width 2 |
| Digits.PadDigitsRoundTrip | app.py:38 | reading a zero-padded number back gives the number |
| Digits.DigitsValueRoundTrip | app.py:38 | padding the value of any digit string to its own width gives the string back |
| Digits.PadDigitsInjective | app.py:38 | two numbers pad to the same string exactly when they are equal |
| DrawCode.Code | app.py:30 | the draw code is 13 characters: eight digits, `/`, four digits (`YYYYMMDD/HHMM`) |
| DrawCode.ParseCode | app.py:30 | a string parses exactly when it is shaped like a draw code |
| DrawCode.CodeRoundTrip | app.py:30 | parsing the code of a date, hour and minute gives back that date, hour and minute |
| DrawCode.ParseCodeRoundTrip | app.py:30 | a code that parses to a valid date and time is the code of that date and time |
| DrawCode.CodeInjective | app.py:30 | two trigger instants share a code exactly when they are the same instant |
| DrawRecord.Pop | app.py:39 | `pop(i)` returns the i-th element, and putting it back at i restores the list |
| DrawRecord.Format | app.py:38 | the formatted list has one entry per sampled number, the i-th being that number padded to two digits; FormatDistinct keeps distinctness |
| DrawRecord.Join | app.py:40 | `",".join`: its meaning is stated by SplitJoin (splitting at commas gives the fields back) and JoinLength |
| DrawRecord.SplitJoin | app.py:40 | splitting the comma-joined fields at commas gives the fields back |
| DrawRecord.JoinLength | app.py:40 | joining n fields of width w takes n*(w+1)-1 characters |
| DrawRecord.FormatDistinct | app.py:37-38 | distinct sampled numbers format to distinct two-digit strings |
| DrawRecord.MakeRecord | app.py:37-40 | the record built from a sample has a 2-character head and 14-character specials; MakeRecordKeepsNumbers and MakeRecordWellFormed state its content |
| DrawRecord.PopDistinct | app.py:39 | the popped head and the remaining five are pairwise distinct when the six were |
| DrawRecord.MakeRecordKeepsNumbers | app.py:37-40 | the head is the formatted number at the chosen index; the specials split into the other five in sampled order; putting the head back gives all six, each of which reads back as its sampled number |
| DrawRecord.MakeRecordWellFormed | app.py:37-40 | every record has a head and five specials, all two-digit numbers in 1..99 and pairwise distinct; the head is 2 characters and the specials 14, within the 2- and 20-character columns |
| Store.Markets | app.py:31 | the nine market symbols in visiting order; MarketsDistinct states they are pairwise distinct |
| Store.Pending | app.py:34-42 | the session after the loop has visited n markets; PendingHas, PendingOnly and PendingSize state what it holds |
| Store.MarketsDistinct | app.py:31 | the market alphabet has nine pairwise distinct symbols |
| Store.PendingHas | app.py:34-42 | every visited market that had no row gets the record built from its own sample in the session |
| Store.PendingOnly | app.py:34-42 | the session holds only keys under the run's code, for visited markets, that had no row |
| Store.PendingSize | app.py:34-42 | when no visited market had a row, the session holds one record per visited market |
| Store.DrawTable.constructor | app.py:70 | a freshly created table is empty |
| Store.DrawTable.Exists | app.py:35-36 | the existence query answers true exactly when the (code, market) key has a row |
| Store.DrawTable.Commit | app.py:43 | the commit inserts all session rows when none of their keys is taken; otherwise the (code, market) unique constraint of app.py:25 rejects it and the table is unchanged |
| Store.DrawTable.BuildSession | app.py:34-42 | the market loop leaves in the session exactly the records `Pending` describes: one for each market without a row, built from its sample |
| Store.DrawTable.GenerateNumbersForTime | app.py:28-43 | a run keeps every row well formed and leaves the table as `Run` describes: the old rows plus the session, and the commit never meets the unique constraint |
| Store.Run | app.py:28-43 | the table after a run keeps every earlier key; RunValid, RunCoversMarkets, RunAddsOnlyAlphabet, RunKeepsExisting, RunNewRecords, RunIdempotent and RunOnEmptyTable state the rest |
| Store.RunValid | app.py:28-43 | a run on a table of well-formed rows leaves only well-formed rows |
| Store.RunCoversMarkets | app.py:31-43 | after a run, every market has a row under the run's code |
| Store.RunAddsOnlyAlphabet | app.py:31-43 | a run adds rows only under its own code and only for the nine markets |
| Store.RunKeepsExisting | app.py:35-36 | rows present before a run keep their keys and records, including rows under other codes |
| Store.RunNewRecords | app.py:37-42 | each newly added row holds the record built from its market's sample |
| Store.RunIdempotent | app.py:35-36 | a second run for the same code, whatever it draws, leaves the table unchanged |
| Store.RunOnEmptyTable | app.py:31-43 | on an empty table a run writes exactly nine rows, one per market, all under its code |
| Store.GenerateTwice | app.py:28-43 | two runs for the same instant on a fresh table leave nine rows |
| Scheduler.JobId | app.py:56 | a job id is 9 characters and starts with `draw_`; JobIdDigits reads the hour and then the minute back from the digits that follow |
| Scheduler.JobIdDigits | app.py:56 | the id is `draw_` followed by two digits reading back as the hour and two digits reading back as the minute (`draw_HHMM`) |
| Scheduler.JobIdInjective | app.py:56 | two jobs share an id exactly when they have the same hour and minute |
| Scheduler.JobFor | app.py:52-56 | the job for an hour and minute fires at that time and carries `draw_HHMM` as id (JobIdDigits); RegisterJobs and JobTableWellFormed state the table of them |
| Scheduler.RegisterJobs | app.py:50-58 | the loops register 144 jobs, the k-th for hour k/6 and minute 10*(k%6); every hour is below 24, every minute is one of 0,10,…,50, and the ids are pairwise distinct |
| Scheduler.JobTableWellFormed | app.py:50-56 | in the registered table every hour is below 24, every minute is one of the six, and no two jobs share an id |
| Scheduler.Scheduled | app.py:52-57 | the id-keyed job store after adding the jobs with `replace_existing=True` holds no more jobs than were added; ScheduledKeys, ScheduledSize and ScheduledHas state its content |
| Scheduler.ScheduledKeys | app.py:52-58 | the job store holds a job under every id added and under no other |
| Scheduler.ScheduledSize | app.py:57 | with distinct ids, no job is replaced: the store holds as many jobs as were added |
| Scheduler.ScheduledHas | app.py:57 | with distinct ids, each added job is the one stored under its id |
| Scheduler.StartupHas | app.py:50-58 | the job for each hour and minute is stored under its own id |
| Scheduler.StartupSchedules | app.py:50-58 | start-up leaves exactly 144 jobs in the scheduler, the one for each hour and minute under its id |
| Listing.StrLessIrreflexive | app.py:65 | no code sorts strictly before itself |
| Listing.StrLessTransitive | app.py:65 | string order is transitive |
| Listing.StrLessTotal | app.py:65 | any two distinct codes are ordered one way or the other |
| Listing.PrecedesTotal | app.py:65 | any two rows are ordered by (code descending, market ascending) one way or the other |
| Listing.PrecedesTransitive | app.py:65 | the row order is transitive |
| Listing.Insert | app.py:65 | inserting a row adds exactly that row to the multiset of rows |
| Listing.Sort | app.py:65 | sorting is a permutation of the rows |
| Listing.InsertBounds | app.py:65 | a row ordered before the inserted row and before all of the rest is ordered before the whole result |
| Listing.InsertSorted | app.py:65 | inserting into an ordered list gives an ordered list |
| Listing.SortSorted | app.py:65 | the sorted rows are in (code descending, market ascending) order |
| Listing.Recent | app.py:65 | the query result holds at most `limit` rows; RecentSpec states its order, length, provenance and that omitted rows come after shown ones |
| Listing.RecentSpec | app.py:65 | the listing is ordered, holds min(limit, table size) rows, all taken from the table, and every row left out comes after every row shown |
| Listing.AdminListing | app.py:64-66 | the admin page shows at most 100 rows |

## Left out

- The Flask application, the `/admin` route's template rendering and `app.run` are out of scope. They carry no logic.
- SQLAlchemy is not modelled: the engine, sessions, `create_all` and the `DATABASE_URL` configuration. The table is a map keyed by (code, market), which is the unique constraint.
- The `id` and `created_at` columns are not modelled. No rule reads them.
- APScheduler's threads, cron triggers, misfire handling and `scheduler.start()` are not modelled. The model keeps the job list the loops register and the id-keyed job store they leave behind.
- The wall clock and the Asia/Kuala_Lumpur time zone are left out. The date is an input.
- DrawCode.ValidDate: accepts years 1000..9999 only, so that `%Y` gives four digits. It does not check calendar validity (for example 31 February), which `datetime` guarantees.
- The random number generator is left out. The samples are inputs constrained to what `random.sample(range(1, 100), 6)` and `random.randint(0, 5)` return.
- Store.DrawTable.Exists: reads only committed rows. Under autoflush the query would also see rows added earlier in the same session. The two agree, because a run visits each market once.
- Concurrent runs are not modelled. Two runs that interleave between the existence check and the commit are out of scope.
- Store.DrawTable.Commit: models the unique constraint rejecting the whole transaction. The source does not catch that `IntegrityError`, so in a concurrent run it would propagate out of the job. Catching and ignoring that error would make a concurrent duplicate harmless; the code does not catch it, and the model follows the code. Within one run the commit never fails.
- The `print` of the completion line is left out.
- Listing.RecentSpec: takes the table as a sequence of rows rather than the store's map. It compares strings by plain character code, not by a database collation.
