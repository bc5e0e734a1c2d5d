# Seance booking rules, modelled in Dafny

This project models the booking validator of a coaching-appointment
application written with Django. A client asks for a slot (a date and a start
time) with a coach. The form `PriseSeanceForm` refuses a slot in the past, a
slot on a Saturday or Sunday, and a slot within ten minutes of another booking
of the same coach on the same date. Its `save` stamps the client and the coach
on the new `Seance`, runs the record's own validation (`full_clean`: the 08:00
to 20:00 service hours and the uniqueness of date, start time and coach) and
stores it. The archive record `RdvHistorique` carries an outcome code from
1 to 4.

Representation:

- a date is a day number counted as Python's `date.toordinal()` counts it
  (day 1 is 0001-01-01, a Monday), so the weekday is `(d + 6) % 7` with
  Monday 0, exactly as `date.weekday()` computes it;
- a time of day is a number of minutes since midnight (`Calendar.Minute`);
- "now" is a local (date, time) instant passed in as a parameter;
- the `Seance` table is a sequence of records held by the class
  `SeanceForms.SeanceTable`; a query is a function over that sequence.

Files: `wrappers.dfy` (Option, Result, Outcome), `calendar.dfy` (dates, times,
instants, the wrap-around of a shifted time), `ordering.dfy` (sorting by a key,
used for the default orderings), `seances_models.dfy` (`Seance`,
`RdvHistorique`), `seances_forms.dfy` (`PriseSeanceForm`, the table).

Points of the code worth knowing:

- the service hours are the rule of `Seance.clean`, and 20:00 itself is
  accepted (seances/models.py:36); the form's own hours check is commented
  out (seances/forms.py:52-56). Django runs `Seance.clean` both while the
  form validates and in `full_clean` at commit; as a modelling choice, the
  model applies the rule only at commit;
- the ten-minute window is computed from times of day, so it wraps at
  midnight: for a start time before 00:10 or from 23:50 on the lower bound is
  after the upper one and no clash is ever found (seances/forms.py:69-70).
  `SeanceForms.CommitKeepsSpacing` shows this never lets a clash into the
  table, because `full_clean` refuses those start times;
- the outcome of a finished appointment is recorded in a separate archive
  record with codes 1 to 4 (seances/models.py:44-85). Django checks those
  codes only when a record is validated, not on a plain save; the code that
  writes archive records is not part of this model, so the model keeps only
  validated archive records.

## Model

| member | source | states |
|---|---|---|
| `Calendar.StampMonotone` | seances/forms.py:49-50 | comparing (date, time) pairs as datetimes agrees with comparing one minute count; used for "before now" and for the orderings |
| `Calendar.ShiftTime` | seances/forms.py:69-70 | the time of day of a datetime shifted by some minutes differs from the unshifted sum by a whole number of days |
| `Calendar.ShiftTimeCases` | seances/forms.py:69-70 | a shift is plain addition inside the day, and adds or removes one day when it crosses midnight |
| `Calendar.Weekday` | seances/forms.py:61 | `date.weekday()` is a number from 0 (Monday) to 6 (Sunday) |
| `Calendar.WeekdaySuccession` | seances/forms.py:61 | 0001-01-01 is a Monday and each day's weekday is the previous day's plus one, modulo 7 |
| `Ordering.InsertBy` | seances/models.py:41 | inserting into a key-sorted sequence keeps it sorted and adds exactly one element |
| `Ordering.SortBy` | seances/models.py:41 | the result is sorted by the key and is a permutation of the input |
| `SeanceModels.CleanSeance` | seances/models.py:35-37 | `Seance.clean` returns or raises the service-hours error and nothing else |
| `SeanceModels.ServiceHours` | seances/models.py:35-37 | a start time passes `Seance.clean` exactly when it lies between 08:00 and 20:00 |
| `SeanceModels.ServiceHoursBoundaries` | seances/models.py:36 | 08:00 and 20:00 are accepted; 07:59 and 20:01 are refused |
| `SeanceModels.CleanSeanceReadsOnlyStartTime` | seances/models.py:35-37 | the hours rule depends on the start time alone |
| `SeanceModels.UniqueTogetherAppend` | seances/models.py:40 | adding a seance keeps the (date, start time, coach) triples unique exactly when its triple is not yet stored |
| `SeanceModels.SameSlotOtherCoach` | seances/models.py:40 | two coaches may hold the same date and start time |
| `SeanceModels.FullClean` | seances/forms.py:84 | `full_clean` reports the hours error exactly when `Seance.clean` fails, the duplicate error exactly when the triple is taken, and nothing exactly when both pass |
| `SeanceModels.ListSeances` | seances/models.py:41 | the seances are listed in ascending (date, start time) order and none is lost or added |
| `SeanceModels.CodeValue` | seances/models.py:66-71 | every outcome is stored as an integer from 1 to 4, and CODE_CHOIX lists that integer with the outcome's own label |
| `SeanceModels.CodeFromValue` | seances/models.py:66-78 | an integer is an accepted `code_rdv` exactly when CODE_CHOIX lists it |
| `SeanceModels.CodeRoundTrip` | seances/models.py:66-78 | outcomes and the integers 1 to 4 correspond one to one, in both directions |
| `SeanceModels.ListHistorique` | seances/models.py:85 | the archive is listed in descending (date, start time) order and none is lost or added |
| `SeanceForms.ClashQuery` | seances/forms.py:66-71 | the query returns exactly the stored seances of the coach on the date whose start time is within the window bounds |
| `SeanceForms.ClashesIff` | seances/forms.py:72 | `exists()` is true exactly when some stored seance lies in the window |
| `SeanceForms.ClashWindowAwayFromMidnight` | seances/forms.py:65-71 | from 00:10 to 23:49 the window is [start - 10 min, start + 10 min], both ends included |
| `SeanceForms.ClashWindowEmptyNearMidnight` | seances/forms.py:69-71 | before 00:10 or from 23:50 on, the lower bound is after the upper bound and no seance is in the window |
| `SeanceForms.Clean` | seances/forms.py:40-76 | a successful `clean` returns the cleaned data unchanged |
| `SeanceForms.IncompleteDataPasses` | seances/forms.py:45-46 | without a date or a start time, `clean` accepts whatever the coach, now and the stored seances |
| `SeanceForms.PastSlotIff` | seances/forms.py:48-51 | the past-slot error is raised exactly for a complete request strictly before now |
| `SeanceForms.NowIsNotPast` | seances/forms.py:50 | a request exactly at now is not refused as past |
| `SeanceForms.WeekendIff` | seances/forms.py:60-62 | the weekend error is raised exactly for a complete request, not in the past, on a Saturday or Sunday, at any time |
| `SeanceForms.TooCloseIff` | seances/forms.py:64-73 | the too-close error is raised exactly when the past and weekend checks pass and some stored seance lies in the window |
| `SeanceForms.CleanOkIff` | seances/forms.py:40-76 | `clean` accepts exactly incomplete data, or a request not in the past, on a weekday, with no stored seance in the window |
| `SeanceForms.TooCloseWithinTenMinutes` | seances/forms.py:65-73 | away from midnight, too close means a seance of the same coach on the same date at most ten minutes earlier or later |
| `SeanceForms.NoClashNearMidnight` | seances/forms.py:69-73 | within ten minutes of midnight the too-close error is never raised |
| `SeanceForms.UnrelatedSeanceIrrelevant` | seances/forms.py:67-68 | a stored seance of another coach or on another date never changes what `clean` decides |
| `SeanceForms.TenMinutesRejectedElevenAccepted` | seances/forms.py:65-73 | with a seance at 10:00, 09:50 and 10:10 are refused, 10:11 is accepted, and another coach may take 10:00 |
| `SeanceForms.SaturdayRefused` | seances/forms.py:61-62 | 2025-03-10 is a Monday, and a request for Saturday 2025-03-15 is refused at any time |
| `SeanceForms.SpacedIsUnique` | seances/models.py:40 | a schedule whose bookings of a coach on a date are more than ten minutes apart has unique triples |
| `SeanceForms.CommitKeepsSpacing` | seances/forms.py:65-86 | storing a request that passed `clean` and `full_clean` keeps every coach's bookings on a date more than ten minutes apart |
| `SeanceForms.SeanceTable.Insert` | seances/models.py:40 | the insert succeeds exactly when the triple is free, appends the seance, and otherwise leaves the table unchanged; uniqueness is kept |
| `SeanceForms.SeanceTable.Save` | seances/forms.py:79-86 | a form that `clean` refused is an error and stores nothing; otherwise the record built from the cleaned data carries the injected client and coach; without commit nothing is stored; with commit the record is stored exactly when `full_clean` reports nothing, otherwise its errors are returned and the table is unchanged; a schedule whose bookings are more than ten minutes apart stays so |

## Left out

- The HTTP view, the choice of the first coach, the redirect when there is no coach and the session flag that shows a confirmation: the coach is a parameter of `clean` and `save`.
- The cancel, completion, absence and history views named in seances/urls.py: their code is not part of this model, so no status transitions or history partitions are modelled.
- Time zones: `make_aware` and `timezone.now()` become a local instant passed in by the caller.
- Seconds and microseconds of a start time and of the current instant: times of day are whole minutes, so the past-slot comparison stays exact only when the caller rounds the current instant up to the next whole minute.
- The range of Python's `datetime` (years 1 to 9999): dates are unbounded integers, so the overflow that shifting 9999-12-31 23:50 by ten minutes would raise is not modelled.
- Django's form machinery around `clean`: parsing of the submitted fields, the `max_length` of `objet`, the existence of the referenced users, and the hours rule that Django's model form also runs while validating; the model applies the hours rule where the code names it, in `full_clean` at commit.
- Database mechanics and concurrency: the table is a sequence, requests run one at a time, and the unique index is the insert's check.
- `__str__` and form widget attributes: presentation only.
- `SeanceModels.ListSeances`: does not fix the relative order of seances with the same date and start time (the database does not either); the model's sort puts them in the reverse of their stored order.
- `SeanceForms.ClashQuery`: states which rows the query returns, not their order, since only `exists()` is used.
- `SeanceForms.SeanceTable.Save`: since the hours rule is applied only at commit, a save without commit returns a record outside the service hours, where Django's form validation would already have refused it; with commit such a request is answered with the hours error of `full_clean`, where Django would already have refused the form and `save` would raise its invalid-form error.
- `SeanceForms.SeanceTable.Save`: a request whose start time is missing or unparsable is answered with the invalid-form error; in Django, form validation still calls `Seance.clean`, whose comparison of a missing start time with 08:00 raises a type error, so neither validation nor `save` completes.
