/**
 * The booking form `PriseSeanceForm`: the checks a requested slot must pass
 * (`clean`) and the commit path that stamps client and coach on the record and
 * stores it (`save`). The coach and the client are injected by the caller;
 * the current instant is a parameter.
 */
module SeanceForms {
  import opened Wrappers
  import opened Calendar
  import opened SeanceModels

  /** `timedelta(minutes=10)`: the minimum distance between two bookings of a coach. */
  const Margin: int := 10

  /** The form's cleaned data; a field that failed its own validation is absent. */
  datatype CleanedData = CleanedData(date: Option<Date>, heureDebut: Option<Minute>, objet: Option<string>)

  datatype FormError =
    | PastSlot             // the requested slot is before now
    | WeekendUnavailable   // the requested date is a Saturday or a Sunday
    | SlotTooClose         // another seance of the coach is within ten minutes

  predicate IsWeekend(d: Date)
  {
    Weekday(d) == 5 || Weekday(d) == 6
  }

  /**
   * A stored seance kept by the clash query: same coach, same date, and a
   * start time neither before the lower bound nor after the upper bound, the
   * bounds being the times of day ten minutes before and after the candidate.
   */
  predicate InClashWindow(s: Seance, coach: UserId, date: Date, heure: Minute)
  {
    && s.coach == coach
    && s.date == date
    && !(s.heureDebut < ShiftTime(heure, -Margin))
    && !(s.heureDebut > ShiftTime(heure, Margin))
  }

  /**
   * The stored seances of the coach on the date, less those starting before
   * the window's lower bound and those starting after its upper bound.
   */
  function ClashQuery(rows: seq<Seance>, coach: UserId, date: Date, heure: Minute): (r: seq<Seance>)
    ensures forall s :: s in r <==> s in rows && InClashWindow(s, coach, date, heure)
    ensures |r| <= |rows|
  {
    if rows == [] then []
    else
      var tail := ClashQuery(rows[1..], coach, date, heure);
      assert rows == [rows[0]] + rows[1..];
      if InClashWindow(rows[0], coach, date, heure) then [rows[0]] + tail else tail
  }

  /** `clash.exists()`. */
  predicate Clashes(rows: seq<Seance>, coach: UserId, date: Date, heure: Minute)
  {
    |ClashQuery(rows, coach, date, heure)| > 0
  }

  /** The query finds something exactly when some stored seance lies in the window. */
  lemma ClashesIff(rows: seq<Seance>, coach: UserId, date: Date, heure: Minute)
    ensures Clashes(rows, coach, date, heure)
      <==> exists s :: s in rows && InClashWindow(s, coach, date, heure)
  {
    var r := ClashQuery(rows, coach, date, heure);
    if |r| > 0 {
      assert r[0] in r;
    }
  }

  /** Away from midnight the window is the plain interval [heure - 10, heure + 10]. */
  lemma ClashWindowAwayFromMidnight(s: Seance, coach: UserId, date: Date, heure: Minute)
    requires Margin <= heure < MinutesPerDay - Margin
    ensures InClashWindow(s, coach, date, heure)
      <==> s.coach == coach && s.date == date && heure - Margin <= s.heureDebut <= heure + Margin
  {
    ShiftTimeCases(heure, -Margin);
    ShiftTimeCases(heure, Margin);
  }

  /**
   * Within ten minutes of midnight one bound wraps to the other side of the
   * day, the lower bound exceeds the upper one, and the window is empty.
   */
  lemma ClashWindowEmptyNearMidnight(s: Seance, coach: UserId, date: Date, heure: Minute)
    requires heure < Margin || MinutesPerDay - Margin <= heure
    ensures ShiftTime(heure, -Margin) > ShiftTime(heure, Margin)
    ensures !InClashWindow(s, coach, date, heure)
  {
    ShiftTimeCases(heure, -Margin);
    ShiftTimeCases(heure, Margin);
  }

  /**
   * `PriseSeanceForm.clean`: with both date and start time present, reject a
   * slot before now, then a Saturday or Sunday, then a slot within ten
   * minutes of another seance of the same coach on the same date.
   */
  function Clean(data: CleanedData, coach: UserId, now: Instant, rows: seq<Seance>): (r: Result<CleanedData, FormError>)
    ensures r.Ok? ==> r.value == data
  {
    if data.date.None? || data.heureDebut.None? then Ok(data)
    else
      var date, heure := data.date.value, data.heureDebut.value;
      if Before(Instant(date, heure), now) then Err(PastSlot)
      else if IsWeekend(date) then Err(WeekendUnavailable)
      else if Clashes(rows, coach, date, heure) then Err(SlotTooClose)
      else Ok(data)
  }

  predicate Complete(data: CleanedData)
  {
    data.date.Some? && data.heureDebut.Some?
  }

  function Requested(data: CleanedData): Instant
    requires Complete(data)
  {
    Instant(data.date.value, data.heureDebut.value)
  }

  /** Without a date or a start time nothing is checked and no seance is consulted. */
  lemma IncompleteDataPasses(data: CleanedData, coach: UserId, now: Instant, rows: seq<Seance>)
    requires !Complete(data)
    ensures Clean(data, coach, now, rows) == Ok(data)
  {
  }

  /** The past-slot error is raised exactly for a complete slot strictly before now. */
  lemma PastSlotIff(data: CleanedData, coach: UserId, now: Instant, rows: seq<Seance>)
    ensures Clean(data, coach, now, rows) == Err(PastSlot)
      <==> Complete(data) && Before(Requested(data), now)
  {
  }

  /** A slot exactly at now is not in the past. */
  lemma NowIsNotPast(data: CleanedData, coach: UserId, now: Instant, rows: seq<Seance>)
    requires Complete(data) && Requested(data) == now
    ensures Clean(data, coach, now, rows) != Err(PastSlot)
  {
  }

  /** The weekend error: complete, not in the past, on a Saturday or Sunday, at any time. */
  lemma WeekendIff(data: CleanedData, coach: UserId, now: Instant, rows: seq<Seance>)
    ensures Clean(data, coach, now, rows) == Err(WeekendUnavailable)
      <==> Complete(data) && !Before(Requested(data), now) && IsWeekend(data.date.value)
  {
  }

  /** The too-close error: the earlier checks pass and some stored seance lies in the window. */
  lemma TooCloseIff(data: CleanedData, coach: UserId, now: Instant, rows: seq<Seance>)
    ensures Clean(data, coach, now, rows) == Err(SlotTooClose)
      <==> && Complete(data)
           && !Before(Requested(data), now)
           && !IsWeekend(data.date.value)
           && exists s :: s in rows && InClashWindow(s, coach, data.date.value, data.heureDebut.value)
  {
    if Complete(data) {
      ClashesIff(rows, coach, data.date.value, data.heureDebut.value);
    }
  }

  /** Acceptance: incomplete data, or a future weekday slot with no seance in the window. */
  lemma CleanOkIff(data: CleanedData, coach: UserId, now: Instant, rows: seq<Seance>)
    ensures Clean(data, coach, now, rows).Ok?
      <==> || !Complete(data)
           || (&& !Before(Requested(data), now)
               && !IsWeekend(data.date.value)
               && forall s :: s in rows ==> !InClashWindow(s, coach, data.date.value, data.heureDebut.value))
  {
    if Complete(data) {
      ClashesIff(rows, coach, data.date.value, data.heureDebut.value);
    }
  }

  /**
   * Away from midnight, too close means: same coach, same date, and at most
   * ten minutes apart in either direction.
   */
  lemma TooCloseWithinTenMinutes(data: CleanedData, coach: UserId, now: Instant, rows: seq<Seance>)
    requires Complete(data) && !Before(Requested(data), now) && !IsWeekend(data.date.value)
    requires Margin <= data.heureDebut.value < MinutesPerDay - Margin
    ensures Clean(data, coach, now, rows) == Err(SlotTooClose)
      <==> exists s :: && s in rows && s.coach == coach && s.date == data.date.value
                       && data.heureDebut.value - Margin <= s.heureDebut <= data.heureDebut.value + Margin
  {
    var date, heure := data.date.value, data.heureDebut.value;
    TooCloseIff(data, coach, now, rows);
    forall s | s in rows {
      ClashWindowAwayFromMidnight(s, coach, date, heure);
    }
  }

  /** Within ten minutes of midnight the clash check never fires. */
  lemma NoClashNearMidnight(data: CleanedData, coach: UserId, now: Instant, rows: seq<Seance>)
    requires Complete(data)
    requires data.heureDebut.value < Margin || MinutesPerDay - Margin <= data.heureDebut.value
    ensures Clean(data, coach, now, rows) != Err(SlotTooClose)
  {
    TooCloseIff(data, coach, now, rows);
    forall s | s in rows {
      ClashWindowEmptyNearMidnight(s, coach, data.date.value, data.heureDebut.value);
    }
  }

  /** A stored seance of another coach, or on another date, never changes the verdict. */
  lemma UnrelatedSeanceIrrelevant(data: CleanedData, coach: UserId, now: Instant, rows: seq<Seance>, s: Seance)
    requires Complete(data)
    requires s.coach != coach || s.date != data.date.value
    ensures Clean(data, coach, now, rows + [s]) == Clean(data, coach, now, rows)
  {
    var date, heure := data.date.value, data.heureDebut.value;
    ClashesIff(rows, coach, date, heure);
    ClashesIff(rows + [s], coach, date, heure);
  }

  /**
   * On Monday 2025-03-10, with a seance of the coach at 10:00, a request at
   * 10:10 is too close and one at 10:11 is accepted; another coach may take
   * 10:00 itself.
   */
  lemma TenMinutesRejectedElevenAccepted(client: UserId, coach: UserId, other: UserId, objet: string)
    requires other != coach
    ensures var monday: Date := 739320;
            var rows := [Seance(client, coach, monday, Hm(10, 0), objet)];
            var now := Instant(monday, Hm(9, 0));
            && Clean(CleanedData(Some(monday), Some(Hm(10, 10)), Some(objet)), coach, now, rows) == Err(SlotTooClose)
            && Clean(CleanedData(Some(monday), Some(Hm(9, 50)), Some(objet)), coach, now, rows) == Err(SlotTooClose)
            && Clean(CleanedData(Some(monday), Some(Hm(10, 11)), Some(objet)), coach, now, rows).Ok?
            && Clean(CleanedData(Some(monday), Some(Hm(10, 0)), Some(objet)), other, now, rows).Ok?
  {
    var monday: Date := 739320;
    var rows := [Seance(client, coach, monday, Hm(10, 0), objet)];
    assert rows[0] in ClashQuery(rows, coach, monday, Hm(10, 10));
    assert rows[0] in ClashQuery(rows, coach, monday, Hm(9, 50));
    assert ClashQuery(rows, coach, monday, Hm(10, 11)) == [];
    assert ClashQuery(rows, other, monday, Hm(10, 0)) == [];
  }

  /**
   * 2025-03-10 is a Monday; a request for Saturday 2025-03-15 is refused
   * whatever the time, before any stored seance is looked at.
   */
  lemma SaturdayRefused(coach: UserId, rows: seq<Seance>, t: Minute, objet: string)
    ensures Weekday(739320) == 0 && Weekday(739325) == 5
    ensures Clean(CleanedData(Some(739325), Some(t), Some(objet)), coach, Instant(739320, Hm(9, 0)), rows)
      == Err(WeekendUnavailable)
  {
  }

  // ---------------------------------------------------------------------------
  // Spacing: what the checks guarantee about the stored schedule

  function Gap(a: Minute, b: Minute): nat
  {
    if a <= b then b - a else a - b
  }

  /** Any two seances of one coach on one date start more than ten minutes apart. */
  ghost predicate Spaced(rows: seq<Seance>)
  {
    forall i, j ::
      0 <= i < |rows| && 0 <= j < |rows| && i != j
      && rows[i].coach == rows[j].coach && rows[i].date == rows[j].date
      ==> Gap(rows[i].heureDebut, rows[j].heureDebut) > Margin
  }

  /** A spaced schedule has unique (date, start time, coach) triples. */
  lemma SpacedIsUnique(rows: seq<Seance>)
    requires Spaced(rows)
    ensures UniqueTogether(rows)
  {
  }

  /**
   * A request that passes `clean` for a coach and then `full_clean` is more
   * than ten minutes away from every seance of that coach on that date, so
   * storing it keeps the schedule spaced. The hours rule of `full_clean` is
   * what keeps the wrapped window near midnight from letting a clash through.
   */
  lemma CommitKeepsSpacing(rows: seq<Seance>, data: CleanedData, coach: UserId, now: Instant, s: Seance)
    requires Spaced(rows)
    requires Complete(data) && Clean(data, coach, now, rows).Ok?
    requires s.coach == coach && SlotOf(s) == Requested(data)
    requires FullClean(s, rows) == []
    ensures Spaced(rows + [s])
  {
    var date, heure := data.date.value, data.heureDebut.value;
    CleanOkIff(data, coach, now, rows);
    var rows' := rows + [s];
    forall i, j |
      0 <= i < |rows'| && 0 <= j < |rows'| && i != j
      && rows'[i].coach == rows'[j].coach && rows'[i].date == rows'[j].date
      ensures Gap(rows'[i].heureDebut, rows'[j].heureDebut) > Margin
    {
      if i < |rows| && j < |rows| {
        assert rows'[i] == rows[i] && rows'[j] == rows[j];
      } else {
        var k := if i < |rows| then i else j;
        assert rows'[k] == rows[k] && rows[k] in rows;
        ClashWindowAwayFromMidnight(rows[k], coach, date, heure);
      }
    }
  }

  // ---------------------------------------------------------------------------
  // The store and the commit path

  datatype StoreError = IntegrityError

  /** Why `save` stored nothing: the form did not validate, or `full_clean` raised. */
  datatype SaveError = FormHasErrors | InvalidRecord(errors: seq<ModelError>)

  /** The form validates: every field was parsed and `clean` raised nothing. */
  predicate FormValid(data: CleanedData, coach: UserId, now: Instant, rows: seq<Seance>)
  {
    Complete(data) && data.objet.Some? && Clean(data, coach, now, rows).Ok?
  }

  /** The record built from the cleaned data, with the injected client and coach stamped on it. */
  function Booked(data: CleanedData, client: UserId, coach: UserId): Seance
    requires Complete(data) && data.objet.Some?
  {
    Seance(client, coach, data.date.value, data.heureDebut.value, data.objet.value)
  }

  /** The `Seance` table, with the database's unique index on (date, heure_debut, coach). */
  class SeanceTable {
    var rows: seq<Seance>

    ghost predicate Valid()
      reads this
    {
      UniqueTogether(rows)
    }

    constructor ()
      ensures Valid() && rows == []
    {
      rows := [];
    }

    /** `seance.save()`: an INSERT, refused by the unique index when the triple is taken. */
    method Insert(s: Seance) returns (r: Outcome<StoreError>)
      requires Valid()
      modifies this
      ensures Valid()
      ensures r.Pass? <==> !SlotTaken(old(rows), s)
      ensures rows == if r.Pass? then old(rows) + [s] else old(rows)
    {
      UniqueTogetherAppend(rows, s);
      if SlotTaken(rows, s) {
        r := Fail(IntegrityError);
      } else {
        rows := rows + [s];
        r := Pass;
      }
    }

    /**
     * `PriseSeanceForm.save`: refused when the form has errors; otherwise the
     * record built from the cleaned data gets the injected client and coach,
     * and with `commit` it is validated by `full_clean` and, when that raises
     * nothing, stored. A booking made this way keeps the schedule spaced.
     */
    method Save(data: CleanedData, client: UserId, coach: UserId, now: Instant, commit: bool)
      returns (r: Result<Seance, SaveError>)
      requires Valid()
      modifies this
      ensures Valid()
      ensures !FormValid(data, coach, now, old(rows)) ==> r == Err(FormHasErrors) && rows == old(rows)
      ensures FormValid(data, coach, now, old(rows)) ==>
                var s := Booked(data, client, coach);
                if !commit then r == Ok(s) && rows == old(rows)
                else if FullClean(s, old(rows)) == [] then r == Ok(s) && rows == old(rows) + [s]
                else r == Err(InvalidRecord(FullClean(s, old(rows)))) && rows == old(rows)
      ensures r.Ok? ==> r.value.client == client && r.value.coach == coach
      ensures Spaced(old(rows)) ==> Spaced(rows)
    {
      if !FormValid(data, coach, now, rows) {
        return Err(FormHasErrors);
      }
      var seance := Booked(data, client, coach);
      if commit {
        var errors := FullClean(seance, rows);
        if errors != [] {
          return Err(InvalidRecord(errors));
        }
        if Spaced(rows) {
          CommitKeepsSpacing(rows, data, coach, now, seance);
        }
        var stored := Insert(seance);
        assert stored.Pass?;
      }
      r := Ok(seance);
    }
  }
}
