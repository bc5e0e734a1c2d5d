/**
 * The stored records of the booking application: `Seance`, a booked
 * appointment, and `RdvHistorique`, the archive of a finished one, with the
 * rules the models themselves impose (service hours, one booking per coach and
 * slot, default ordering, outcome codes).
 */
module SeanceModels {
  import opened Wrappers
  import opened Calendar
  import Ordering

  /** The primary key of a `User`. */
  type UserId = nat

  /** A booked appointment between a client and a coach. */
  datatype Seance = Seance(
    client: UserId,
    coach: UserId,
    date: Date,
    heureDebut: Minute,
    objet: string)

  /** The date and start time of a seance as one instant. */
  function SlotOf(s: Seance): Instant
  {
    Instant(s.date, s.heureDebut)
  }

  /** Errors raised by the record's own validation. */
  datatype ModelError =
    | OutsideServiceHours   // the start time is outside the service hours
    | DuplicateSlot         // the coach already has a seance at that date and time

  const OpeningTime: Minute := Hm(8, 0)
  const ClosingTime: Minute := Hm(20, 0)

  /** `Seance.clean`: the start time must lie in the service hours. */
  function CleanSeance(s: Seance): (r: Outcome<ModelError>)
    ensures r.Fail? ==> r.error == OutsideServiceHours
  {
    if s.heureDebut < OpeningTime || s.heureDebut > ClosingTime then Fail(OutsideServiceHours) else Pass
  }

  /** Accepted exactly when the start time is between 08:00 and 20:00, both included. */
  lemma ServiceHours(s: Seance)
    ensures CleanSeance(s).Pass? <==> Hm(8, 0) <= s.heureDebut <= Hm(20, 0)
  {
  }

  /** The edges of the service hours: 08:00 and 20:00 pass, 07:59 and 20:01 do not. */
  lemma ServiceHoursBoundaries(s: Seance)
    ensures CleanSeance(s.(heureDebut := Hm(8, 0))).Pass?
    ensures CleanSeance(s.(heureDebut := Hm(20, 0))).Pass?
    ensures CleanSeance(s.(heureDebut := Hm(7, 59))) == Fail(OutsideServiceHours)
    ensures CleanSeance(s.(heureDebut := Hm(20, 1))) == Fail(OutsideServiceHours)
  {
  }

  /** `Seance.clean` depends on the start time only. */
  lemma CleanSeanceReadsOnlyStartTime(s: Seance, t: Seance)
    requires s.heureDebut == t.heureDebut
    ensures CleanSeance(s) == CleanSeance(t)
  {
  }

  // ---------------------------------------------------------------------------
  // One seance per coach, date and start time

  predicate SameSlot(a: Seance, b: Seance)
  {
    a.date == b.date && a.heureDebut == b.heureDebut && a.coach == b.coach
  }

  /** No two stored seances share date, start time and coach. */
  ghost predicate UniqueTogether(rows: seq<Seance>)
  {
    forall i, j :: 0 <= i < j < |rows| ==> !SameSlot(rows[i], rows[j])
  }

  /** Some stored seance already has the triple of `s`. */
  predicate SlotTaken(rows: seq<Seance>, s: Seance)
  {
    exists r :: r in rows && SameSlot(r, s)
  }

  /** Adding a seance whose triple is free keeps the triples unique. */
  lemma UniqueTogetherAppend(rows: seq<Seance>, s: Seance)
    requires UniqueTogether(rows)
    ensures UniqueTogether(rows + [s]) <==> !SlotTaken(rows, s)
  {
    var rows' := rows + [s];
    if SlotTaken(rows, s) {
      var r :| r in rows && SameSlot(r, s);
      var i :| 0 <= i < |rows| && rows[i] == r;
      assert rows'[i] == r && rows'[|rows|] == s;
    }
  }

  /** The rule is per coach: two coaches may share a date and start time. */
  lemma SameSlotOtherCoach(a: Seance, b: Seance)
    requires a.date == b.date && a.heureDebut == b.heureDebut && a.coach != b.coach
    ensures UniqueTogether([a, b])
  {
  }

  /**
   * `Model.full_clean` for a new seance: `Seance.clean`, then the
   * `unique_together` check against the stored rows; the errors of both are
   * collected, the hours error first.
   */
  function FullClean(s: Seance, rows: seq<Seance>): (errors: seq<ModelError>)
    ensures OutsideServiceHours in errors <==> CleanSeance(s).Fail?
    ensures DuplicateSlot in errors <==> SlotTaken(rows, s)
    ensures errors == [] <==> CleanSeance(s).Pass? && !SlotTaken(rows, s)
  {
    (if CleanSeance(s).Fail? then [OutsideServiceHours] else [])
    + (if SlotTaken(rows, s) then [DuplicateSlot] else [])
  }

  // ---------------------------------------------------------------------------
  // Default ordering: by date, then start time

  function SeanceKey(s: Seance): int
  {
    Stamp(s.date, s.heureDebut)
  }

  /** The seances as a query lists them: ascending by date, then start time. */
  function ListSeances(rows: seq<Seance>): (r: seq<Seance>)
    ensures multiset(r) == multiset(rows)
    ensures forall i, j :: 0 <= i < j < |r| ==> !Before(SlotOf(r[j]), SlotOf(r[i]))
  {
    var r := Ordering.SortBy(rows, SeanceKey);
    forall i, j | 0 <= i < j < |r| ensures !Before(SlotOf(r[j]), SlotOf(r[i])) {
      StampMonotone(r[j].date, r[j].heureDebut, r[i].date, r[i].heureDebut);
    }
    r
  }

  // ---------------------------------------------------------------------------
  // RdvHistorique

  /** CODE_CHOIX: the outcome of a finished appointment. */
  datatype CodeRdv = Present | Absent | AnnuleParClient | AnnuleParCoach

  const CodeChoix: seq<(int, string)> := [
    (1, "Présent"),
    (2, "Absent"),
    (3, "Annulé par le client"),
    (4, "Annulé par le coach")
  ]

  /** The label CODE_CHOIX gives an outcome. */
  function CodeLabel(c: CodeRdv): string
  {
    match c
    case Present => "Présent"
    case Absent => "Absent"
    case AnnuleParClient => "Annulé par le client"
    case AnnuleParCoach => "Annulé par le coach"
  }

  /** The integer stored in `code_rdv` for an outcome: the one CODE_CHOIX lists with its label. */
  function CodeValue(c: CodeRdv): (v: int)
    ensures 1 <= v <= 4
    ensures CodeChoix[v - 1] == (v, CodeLabel(c))
  {
    match c
    case Present => 1
    case Absent => 2
    case AnnuleParClient => 3
    case AnnuleParCoach => 4
  }

  /** The validation of `code_rdv` against CODE_CHOIX. */
  function CodeFromValue(v: int): (c: Option<CodeRdv>)
    ensures c.Some? <==> exists i :: 0 <= i < |CodeChoix| && CodeChoix[i].0 == v
  {
    if 1 <= v <= |CodeChoix| then
      assert CodeChoix[v - 1].0 == v;
      Some([Present, Absent, AnnuleParClient, AnnuleParCoach][v - 1])
    else
      None
  }

  /** Stored codes and accepted integers are in one-to-one correspondence. */
  lemma CodeRoundTrip(c: CodeRdv, v: int)
    ensures CodeFromValue(CodeValue(c)) == Some(c)
    ensures CodeFromValue(v).Some? ==> CodeValue(CodeFromValue(v).value) == v
    ensures CodeFromValue(v).Some? <==> 1 <= v <= 4
  {
  }

  /** An archived appointment with its outcome code and optional notes. */
  datatype RdvHistorique = RdvHistorique(
    client: UserId,
    coach: UserId,
    date: Date,
    heureDebut: Minute,
    objet: string,
    codeRdv: CodeRdv,
    notes: Option<string>)

  function HistoriqueSlot(h: RdvHistorique): Instant
  {
    Instant(h.date, h.heureDebut)
  }

  function HistoriqueKey(h: RdvHistorique): int
  {
    -Stamp(h.date, h.heureDebut)
  }

  /** The archive as a query lists it: descending by date, then start time. */
  function ListHistorique(rows: seq<RdvHistorique>): (r: seq<RdvHistorique>)
    ensures multiset(r) == multiset(rows)
    ensures forall i, j :: 0 <= i < j < |r| ==> !Before(HistoriqueSlot(r[i]), HistoriqueSlot(r[j]))
  {
    var r := Ordering.SortBy(rows, HistoriqueKey);
    forall i, j | 0 <= i < j < |r| ensures !Before(HistoriqueSlot(r[i]), HistoriqueSlot(r[j])) {
      StampMonotone(r[i].date, r[i].heureDebut, r[j].date, r[j].heureDebut);
    }
    r
  }
}
