/** What the agenda endpoints compute, as functions of the tables: the listing
    of a specialist's upcoming agendas, and the find-or-create upsert of the
    Agenda -> DiaAgenda -> Turno hierarchy that publishing a schedule performs. */
module AgendaModel {
  import opened Wrappers
  import opened Defines
  import opened Store
  import opened SlotCode

  // Listing the upcoming agendas.

  /** "Today" as `Calendar.getInstance()` reports it; `month` is 0-based, as
      `Calendar.MONTH` is, and `date` is the day of the month. */
  datatype Calendar = Calendar(year: int, month: int, date: int)

  /** The response rows: a slot, a day with its slots, an agenda with its days. */
  datatype TurnoData = TurnoData(id: int, horaInicio: string, duracion: int, estado: bool)
  datatype DiaAgendaData = DiaAgendaData(id: int, dia: int, turnoList: seq<TurnoData>)
  datatype AgendaData = AgendaData(id: int, mes: int, anio: int, diaAgendaList: seq<DiaAgendaData>)

  /** The agenda test of the listing: year not before this year and month not
      before this month, each compared on its own. */
  predicate IsUpcoming(a: Agenda, now: Calendar): (r: bool)
    ensures r ==> IsUpcomingCorrected(a, now)
  {
    a.anio >= now.year && a.mes >= now.month + 1
  }

  /** The day test of the listing: day of the month not before today's. */
  predicate IsUpcomingDay(d: DiaAgenda, now: Calendar) {
    d.dia >= now.date
  }

  /** The month of a year and a 1-based month, counted from January of year 0. */
  function MonthNumber(anio: int, mes: int): int {
    anio * 12 + mes - 1
  }

  /** The day of a date, counted so that, for months 1-12 and days 1-31, a
      later date gets a larger number. */
  function DayNumber(anio: int, mes: int, dia: int): int {
    MonthNumber(anio, mes) * 31 + dia - 1
  }

  /** The agenda test as the listing means it: the agenda's month is this month
      or a later one. */
  predicate IsUpcomingCorrected(a: Agenda, now: Calendar) {
    a.anio > now.year || (a.anio == now.year && a.mes >= now.month + 1)
  }

  /** The day test as the listing means it: today's day of the month bounds
      only the days of this month's agenda. */
  predicate IsUpcomingDayCorrected(a: Agenda, d: DiaAgenda, now: Calendar) {
    a.anio > now.year || a.mes > now.month + 1 || d.dia >= now.date
  }

  /** The corrected agenda test keeps exactly the agendas of this month or later. */
  lemma IsUpcomingCorrectedByMonth(a: Agenda, now: Calendar)
    requires 1 <= a.mes <= 12 && 0 <= now.month <= 11
    ensures IsUpcomingCorrected(a, now) <==> MonthNumber(a.anio, a.mes) >= MonthNumber(now.year, now.month + 1)
  {
    assert a.anio > now.year ==> a.anio * 12 >= now.year * 12 + 12;
    assert a.anio < now.year ==> a.anio * 12 + 12 <= now.year * 12;
  }

  /** The corrected tests together keep exactly the days from today on. */
  lemma IsUpcomingDayCorrectedByDate(a: Agenda, d: DiaAgenda, now: Calendar)
    requires 1 <= a.mes <= 12 && 0 <= now.month <= 11 && 1 <= d.dia <= 31 && 1 <= now.date <= 31
    ensures IsUpcomingCorrected(a, now) && IsUpcomingDayCorrected(a, d, now)
      <==> DayNumber(a.anio, a.mes, d.dia) >= DayNumber(now.year, now.month + 1, now.date)
  {
    var m, n := MonthNumber(a.anio, a.mes), MonthNumber(now.year, now.month + 1);
    IsUpcomingCorrectedByMonth(a, now);
    assert a.anio > now.year ==> a.anio * 12 >= now.year * 12 + 12;
    assert a.anio < now.year ==> a.anio * 12 + 12 <= now.year * 12;
    assert m > n ==> m * 31 >= n * 31 + 31;
    assert m < n ==> m * 31 + 31 <= n * 31;
  }

  /** The tests as written never let a past date through: every day they keep
      is today or later.  What they get wrong is only what they leave out. */
  lemma ListedDateNotPast(a: Agenda, d: DiaAgenda, now: Calendar)
    requires IsUpcoming(a, now) && IsUpcomingDay(d, now)
    ensures DayNumber(a.anio, a.mes, d.dia) >= DayNumber(now.year, now.month + 1, now.date)
  {
    assert MonthNumber(a.anio, a.mes) >= MonthNumber(now.year, now.month + 1);
  }

  /** As written, in December 2024 the agenda of January 2025 fails the agenda
      test, although its month is later. */
  lemma IsUpcomingMissesLaterYear()
    ensures var a, now := Agenda(1, 2025, "c"), Calendar(2024, 11, 20);
      && MonthNumber(a.anio, a.mes) > MonthNumber(now.year, now.month + 1)
      && !IsUpcoming(a, now) && IsUpcomingCorrected(a, now)
  {
  }

  /** As written, on 20 May 2024 day 5 of the June 2024 agenda fails the day
      test, although that date is later. */
  lemma IsUpcomingDayMissesLaterMonth()
    ensures var a, d, now := Agenda(6, 2024, "c"), DiaAgenda(5, 1), Calendar(2024, 4, 20);
      && DayNumber(a.anio, a.mes, d.dia) > DayNumber(now.year, now.month + 1, now.date)
      && IsUpcoming(a, now) && !IsUpcomingDay(d, now)
      && IsUpcomingCorrected(a, now) && IsUpcomingDayCorrected(a, d, now)
  {
  }

  ghost predicate Ascending(ks: seq<int>) {
    forall i, j :: 0 <= i < j < |ks| ==> ks[i] < ks[j]
  }

  function TurnoView(id: int, s: Turno): TurnoData {
    TurnoData(id, s.horaInicio, s.duracion, s.estado)
  }

  /** The slots under `ids`, in that order. */
  function TurnoList(t: Tables, ids: seq<int>): (r: seq<TurnoData>)
    requires forall i :: 0 <= i < |ids| ==> ids[i] in t.turnos
    ensures |r| == |ids|
    ensures forall i :: 0 <= i < |ids| ==> r[i] == TurnoView(ids[i], t.turnos[ids[i]])
  {
    if ids == [] then []
    else TurnoList(t, ids[..|ids| - 1]) + [TurnoView(ids[|ids| - 1], t.turnos[ids[|ids| - 1]])]
  }

  /** A listed day: its id, its day of the month and its slots. */
  function DiaView(t: Tables, id: int): (r: DiaAgendaData)
    requires id in t.dias
    ensures r.id == id && r.dia == t.dias[id].dia
  {
    DiaAgendaData(id, t.dias[id].dia, TurnoList(t, FindByDiaAgenda(t, id)))
  }

  /** Every slot a listed day carries is a slot of that day, copied from its
      row. */
  lemma DiaViewTurnosSound(t: Tables, id: int)
    requires id in t.dias
    ensures var ts := DiaView(t, id).turnoList;
      forall i :: 0 <= i < |ts| ==>
        ts[i].id in t.turnos && t.turnos[ts[i].id].diaAgenda == id && ts[i] == TurnoView(ts[i].id, t.turnos[ts[i].id])
  {
    var ids := FindByDiaAgenda(t, id);
    assert forall i :: 0 <= i < |ids| ==> DiaView(t, id).turnoList[i].id == ids[i];
  }

  /** A listed day carries every slot of that day. */
  lemma DiaViewTurnosComplete(t: Tables, id: int)
    requires t.Valid() && id in t.dias
    ensures var ts := DiaView(t, id).turnoList;
      forall k :: k in t.turnos && t.turnos[k].diaAgenda == id ==> exists i :: 0 <= i < |ts| && ts[i].id == k
  {
    var ids := FindByDiaAgenda(t, id);
    var ts := DiaView(t, id).turnoList;
    forall k | k in t.turnos && t.turnos[k].diaAgenda == id
      ensures exists i :: 0 <= i < |ts| && ts[i].id == k
    {
      var i :| 0 <= i < |ids| && ids[i] == k;
      assert ts[i].id == k;
    }
  }

  /** A listed day carries its slots in id order. */
  lemma DiaViewTurnosOrdered(t: Tables, id: int)
    requires id in t.dias
    ensures var ts := DiaView(t, id).turnoList;
      forall i, j :: 0 <= i < j < |ts| ==> ts[i].id < ts[j].id
  {
    var ids := FindByDiaAgenda(t, id);
    assert forall i :: 0 <= i < |ids| ==> DiaView(t, id).turnoList[i].id == ids[i];
  }

  /** The ids of `ids` whose row in `m` passes `keep`, in the order of `ids`. */
  function Filter<T>(m: map<int, T>, ids: seq<int>, keep: T -> bool): (ks: seq<int>)
    requires forall i :: 0 <= i < |ids| ==> ids[i] in m
    ensures forall i :: 0 <= i < |ks| ==> ks[i] in m
  {
    if ids == [] then []
    else Filter(m, ids[..|ids| - 1], keep) + (if keep(m[ids[|ids| - 1]]) then [ids[|ids| - 1]] else [])
  }

  /** Everything `Filter` keeps comes from `ids` and passes the test. */
  lemma {:induction false} FilterSound<T>(m: map<int, T>, ids: seq<int>, keep: T -> bool)
    requires forall i :: 0 <= i < |ids| ==> ids[i] in m
    ensures forall k :: k in Filter(m, ids, keep) ==> k in ids && keep(m[k])
  {
    if ids != [] {
      var pre := ids[..|ids| - 1];
      FilterSound(m, pre, keep);
      assert ids == pre + [ids[|ids| - 1]];
    }
  }

  /** `Filter` keeps everything of `ids` that passes the test. */
  lemma {:induction false} FilterComplete<T>(m: map<int, T>, ids: seq<int>, keep: T -> bool)
    requires forall i :: 0 <= i < |ids| ==> ids[i] in m
    ensures forall k :: k in ids && keep(m[k]) ==> k in Filter(m, ids, keep)
  {
    if ids != [] {
      var pre := ids[..|ids| - 1];
      FilterComplete(m, pre, keep);
      assert ids == pre + [ids[|ids| - 1]];
    }
  }

  /** `Filter` keeps the order of `ids`. */
  lemma {:induction false} FilterAscending<T>(m: map<int, T>, ids: seq<int>, keep: T -> bool)
    requires forall i :: 0 <= i < |ids| ==> ids[i] in m
    requires Ascending(ids)
    ensures Ascending(Filter(m, ids, keep))
  {
    if ids != [] {
      var pre := ids[..|ids| - 1];
      var prev := Filter(m, pre, keep);
      var ks := Filter(m, ids, keep);
      assert Ascending(pre);
      FilterAscending(m, pre, keep);
      FilterSound(m, pre, keep);
      forall i, j | 0 <= i < j < |ks| ensures ks[i] < ks[j] {
        if j >= |prev| {
          assert prev[i] in prev;
          var x :| 0 <= x < |pre| && pre[x] == prev[i];
          assert ids[x] == prev[i];
        }
      }
    }
  }

  /** The day test as a row test. */
  function DayTest(now: Calendar): DiaAgenda -> bool {
    (d: DiaAgenda) => IsUpcomingDay(d, now)
  }

  /** The agenda test as a row test. */
  function AgendaTest(now: Calendar): Agenda -> bool {
    (a: Agenda) => IsUpcoming(a, now)
  }

  /** The listed days under `ids`: one per id that passes the day test, in
      order, as the loop over `diasAgenda` appends them. */
  function DiaList(t: Tables, ids: seq<int>, now: Calendar): (r: seq<DiaAgendaData>)
    requires forall i :: 0 <= i < |ids| ==> ids[i] in t.dias
  {
    if ids == [] then []
    else
      var k := ids[|ids| - 1];
      DiaList(t, ids[..|ids| - 1], now) + (if IsUpcomingDay(t.dias[k], now) then [DiaView(t, k)] else [])
  }

  /** The listed days are the views of the filtered ids. */
  lemma {:induction false} DiaListFilter(t: Tables, ids: seq<int>, now: Calendar)
    requires forall i :: 0 <= i < |ids| ==> ids[i] in t.dias
    ensures var ks := Filter(t.dias, ids, DayTest(now));
      |DiaList(t, ids, now)| == |ks| && forall i :: 0 <= i < |ks| ==> DiaList(t, ids, now)[i] == DiaView(t, ks[i])
  {
    if ids != [] {
      DiaListFilter(t, ids[..|ids| - 1], now);
    }
  }

  /** A listed agenda: its id, month and year, and its listed days. */
  function AgendaView(t: Tables, id: int, now: Calendar): (r: AgendaData)
    requires id in t.agendas
    ensures r.id == id && r.mes == t.agendas[id].mes && r.anio == t.agendas[id].anio
  {
    AgendaData(id, t.agendas[id].mes, t.agendas[id].anio, DiaList(t, FindByAgenda(t, id), now))
  }

  /** Every listed day of an agenda belongs to it, passes the day test and is
      listed with all of its slots. */
  lemma AgendaViewDiasSound(t: Tables, id: int, now: Calendar)
    requires id in t.agendas
    ensures var ds := AgendaView(t, id, now).diaAgendaList;
      forall i :: 0 <= i < |ds| ==>
        ds[i].id in t.dias && t.dias[ds[i].id].agenda == id && IsUpcomingDay(t.dias[ds[i].id], now)
        && ds[i] == DiaView(t, ds[i].id)
  {
    var ids := FindByAgenda(t, id);
    var ks := Filter(t.dias, ids, DayTest(now));
    var ds := AgendaView(t, id, now).diaAgendaList;
    DiaListFilter(t, ids, now);
    FilterSound(t.dias, ids, DayTest(now));
    forall i | 0 <= i < |ds|
      ensures ds[i].id == ks[i] && t.dias[ks[i]].agenda == id && IsUpcomingDay(t.dias[ks[i]], now)
    {
      assert ks[i] in ks;
      var x :| 0 <= x < |ids| && ids[x] == ks[i];
    }
  }

  /** Every day of an agenda that passes the day test is listed. */
  lemma AgendaViewDiasComplete(t: Tables, id: int, now: Calendar, k: int)
    requires t.Valid() && id in t.agendas
    requires k in t.dias && t.dias[k].agenda == id && IsUpcomingDay(t.dias[k], now)
    ensures var ds := AgendaView(t, id, now).diaAgendaList;
      exists i :: 0 <= i < |ds| && ds[i].id == k
  {
    var ids := FindByAgenda(t, id);
    var ks := Filter(t.dias, ids, DayTest(now));
    var ds := AgendaView(t, id, now).diaAgendaList;
    DiaListFilter(t, ids, now);
    FilterComplete(t.dias, ids, DayTest(now));
    assert k in ks;
    var i :| 0 <= i < |ks| && ks[i] == k;
    assert ds[i].id == k;
  }

  /** The listed days of an agenda are in id order. */
  lemma AgendaViewDiasOrdered(t: Tables, id: int, now: Calendar)
    requires id in t.agendas
    ensures var ds := AgendaView(t, id, now).diaAgendaList;
      forall i, j :: 0 <= i < j < |ds| ==> ds[i].id < ds[j].id
  {
    var ids := FindByAgenda(t, id);
    var ks := Filter(t.dias, ids, DayTest(now));
    var ds := AgendaView(t, id, now).diaAgendaList;
    DiaListFilter(t, ids, now);
    FilterAscending(t.dias, ids, DayTest(now));
    assert forall i :: 0 <= i < |ds| ==> ds[i].id == ks[i];
  }

  /** The listed agendas under `ids`: one per id that passes the agenda test,
      in order, as the loop over `agendas` appends them. */
  function AgendaList(t: Tables, ids: seq<int>, now: Calendar): (r: seq<AgendaData>)
    requires forall i :: 0 <= i < |ids| ==> ids[i] in t.agendas
  {
    if ids == [] then []
    else
      var k := ids[|ids| - 1];
      AgendaList(t, ids[..|ids| - 1], now) + (if IsUpcoming(t.agendas[k], now) then [AgendaView(t, k, now)] else [])
  }

  /** The listed agendas are the views of the filtered ids. */
  lemma {:induction false} AgendaListFilter(t: Tables, ids: seq<int>, now: Calendar)
    requires forall i :: 0 <= i < |ids| ==> ids[i] in t.agendas
    ensures var ks := Filter(t.agendas, ids, AgendaTest(now));
      |AgendaList(t, ids, now)| == |ks| && forall i :: 0 <= i < |ks| ==> AgendaList(t, ids, now)[i] == AgendaView(t, ks[i], now)
  {
    if ids != [] {
      AgendaListFilter(t, ids[..|ids| - 1], now);
    }
  }

  /** GET /especialista/{cedula}/agenda (`getAgendaEspecialista`): the NO_AGENDAS
      failure (with the NO_AREAS code) when the specialist has no agenda at
      all; otherwise the listed agendas, which may be none. */
  function AgendaEspecialista(t: Tables, cedula: string, now: Calendar): (r: Result<seq<AgendaData>, GenericResponse>)
    requires t.Valid()
    ensures r.Failure? <==> forall k :: k in t.agendas ==> t.agendas[k].especialista != cedula
    ensures r.Failure? ==> r.error == Full(FAILED, NO_AGENDAS, NO_AREAS)
  {
    var ids := FindByEspecialista(t, cedula);
    if |ids| != 0 then
      assert ids[0] in t.agendas && t.agendas[ids[0]].especialista == cedula;
      Success(AgendaList(t, ids, now))
    else
      assert forall k :: k in t.agendas && t.agendas[k].especialista == cedula ==> k in ids;
      Failure(Full(FAILED, NO_AGENDAS, NO_AREAS))
  }

  /** Every agenda of a successful listing is the specialist's, passes the
      agenda test and is listed with its listed days. */
  lemma AgendaEspecialistaSound(t: Tables, cedula: string, now: Calendar)
    requires t.Valid() && AgendaEspecialista(t, cedula, now).Success?
    ensures var listed := AgendaEspecialista(t, cedula, now).value;
      forall i :: 0 <= i < |listed| ==>
        listed[i].id in t.agendas && t.agendas[listed[i].id].especialista == cedula
        && IsUpcoming(t.agendas[listed[i].id], now) && listed[i] == AgendaView(t, listed[i].id, now)
  {
    var ids := FindByEspecialista(t, cedula);
    var ks := Filter(t.agendas, ids, AgendaTest(now));
    var listed := AgendaEspecialista(t, cedula, now).value;
    AgendaListFilter(t, ids, now);
    FilterSound(t.agendas, ids, AgendaTest(now));
    forall i | 0 <= i < |listed|
      ensures listed[i].id == ks[i] && t.agendas[ks[i]].especialista == cedula && IsUpcoming(t.agendas[ks[i]], now)
    {
      assert ks[i] in ks;
      var x :| 0 <= x < |ids| && ids[x] == ks[i];
    }
  }

  /** Every agenda of the specialist that passes the agenda test is listed. */
  lemma AgendaEspecialistaComplete(t: Tables, cedula: string, now: Calendar, k: int)
    requires t.Valid()
    requires k in t.agendas && t.agendas[k].especialista == cedula && IsUpcoming(t.agendas[k], now)
    ensures AgendaEspecialista(t, cedula, now).Success?
    ensures var listed := AgendaEspecialista(t, cedula, now).value;
      exists i :: 0 <= i < |listed| && listed[i].id == k
  {
    var ids := FindByEspecialista(t, cedula);
    var ks := Filter(t.agendas, ids, AgendaTest(now));
    var listed := AgendaEspecialista(t, cedula, now).value;
    AgendaListFilter(t, ids, now);
    FilterComplete(t.agendas, ids, AgendaTest(now));
    assert k in ks;
    var i :| 0 <= i < |ks| && ks[i] == k;
    assert listed[i].id == k;
  }

  /** The agendas of a successful listing are in id order. */
  lemma AgendaEspecialistaOrdered(t: Tables, cedula: string, now: Calendar)
    requires t.Valid() && AgendaEspecialista(t, cedula, now).Success?
    ensures var listed := AgendaEspecialista(t, cedula, now).value;
      forall i, j :: 0 <= i < j < |listed| ==> listed[i].id < listed[j].id
  {
    var ids := FindByEspecialista(t, cedula);
    var ks := Filter(t.agendas, ids, AgendaTest(now));
    var listed := AgendaEspecialista(t, cedula, now).value;
    AgendaListFilter(t, ids, now);
    FilterAscending(t.agendas, ids, AgendaTest(now));
    assert forall i :: 0 <= i < |listed| ==> listed[i].id == ks[i];
  }

  /** As written, the listing never shows an agenda whose month of the year
      is before this month, whatever its year. */
  lemma AgendaEspecialistaSkipsEarlierMonths(t: Tables, cedula: string, now: Calendar, k: int)
    requires t.Valid() && AgendaEspecialista(t, cedula, now).Success?
    requires k in t.agendas && t.agendas[k].mes < now.month + 1
    ensures var listed := AgendaEspecialista(t, cedula, now).value;
      forall i :: 0 <= i < |listed| ==> listed[i].id != k
  {
    AgendaEspecialistaSound(t, cedula, now);
  }

  /** As written, a listed agenda never shows a day whose day of the month is
      before today's, whatever the agenda's month. */
  lemma AgendaViewSkipsEarlierDays(t: Tables, id: int, now: Calendar, k: int)
    requires id in t.agendas && k in t.dias && t.dias[k].dia < now.date
    ensures var ds := AgendaView(t, id, now).diaAgendaList;
      forall i :: 0 <= i < |ds| ==> ds[i].id != k
  {
    AgendaViewDiasSound(t, id, now);
  }

  // Publishing a schedule.

  /** At most one agenda per (month, year, specialist). */
  ghost predicate OneAgendaPerMonth(t: Tables) {
    forall a, b :: a in t.agendas && b in t.agendas && t.agendas[a] == t.agendas[b] ==> a == b
  }

  /** At most one day per (agenda, day of the month). */
  ghost predicate OneDiaPerDay(t: Tables) {
    forall a, b :: a in t.dias && b in t.dias && t.dias[a] == t.dias[b] ==> a == b
  }

  /** At most one slot per (day, start time). */
  ghost predicate OneTurnoPerStart(t: Tables) {
    forall a, b :: a in t.turnos && b in t.turnos && t.turnos[a].horaInicio == t.turnos[b].horaInicio
      && t.turnos[a].diaAgenda == t.turnos[b].diaAgenda
      ==> a == b
  }

  ghost predicate Unique(t: Tables) {
    OneAgendaPerMonth(t) && OneDiaPerDay(t) && OneTurnoPerStart(t)
  }

  /** Inserting an agenda no row equals keeps agendas unique. */
  lemma InsertAgendaKeepsOne(t: Tables, row: Agenda)
    requires t.Valid() && OneAgendaPerMonth(t)
    requires forall k :: k in t.agendas ==> t.agendas[k] != row
    ensures OneAgendaPerMonth(t.InsertAgenda(row))
  {
    var t' := t.InsertAgenda(row);
    forall a, b | a in t'.agendas && b in t'.agendas && t'.agendas[a] == t'.agendas[b]
      ensures a == b
    {
      if a != t.nextId && b != t.nextId {
        assert t.agendas[a] == t.agendas[b];
      }
    }
  }

  /** Inserting a day no row equals keeps days unique. */
  lemma InsertDiaKeepsOne(t: Tables, row: DiaAgenda)
    requires t.Valid() && OneDiaPerDay(t)
    requires forall k :: k in t.dias ==> t.dias[k] != row
    ensures OneDiaPerDay(t.InsertDia(row))
  {
    var t' := t.InsertDia(row);
    forall a, b | a in t'.dias && b in t'.dias && t'.dias[a] == t'.dias[b]
      ensures a == b
    {
      if a != t.nextId && b != t.nextId {
        assert t.dias[a] == t.dias[b];
      }
    }
  }

  /** Inserting a slot no other slot shares its day and start time with keeps
      slots unique. */
  lemma InsertTurnoKeepsOne(t: Tables, row: Turno)
    requires t.Valid() && OneTurnoPerStart(t)
    requires forall k :: k in t.turnos ==> !(t.turnos[k].horaInicio == row.horaInicio && t.turnos[k].diaAgenda == row.diaAgenda)
    ensures OneTurnoPerStart(t.InsertTurno(row))
  {
    var t' := t.InsertTurno(row);
    forall a, b | a in t'.turnos && b in t'.turnos && t'.turnos[a].horaInicio == t'.turnos[b].horaInicio
      && t'.turnos[a].diaAgenda == t'.turnos[b].diaAgenda
      ensures a == b
    {
      if a != t.nextId && b != t.nextId {
        assert t.turnos[a] == t'.turnos[a] && t.turnos[b] == t'.turnos[b];
      }
    }
  }

  /** `verificarExistenciaAgenda`, falling back to `createAgenda`: the tables
      and the id of the specialist's agenda for the month. */
  function AgendaFor(t: Tables, cedula: string, anio: int, mes: int): (r: (Tables, int))
    ensures r.1 in r.0.agendas && r.0.agendas[r.1] == Agenda(mes, anio, cedula)
    ensures Grows(t, r.0) && r.0.dias == t.dias && r.0.turnos == t.turnos
    ensures VerificarExistenciaAgenda(t, mes, anio, cedula).Some? ==> r.0 == t
    ensures forall k :: k in r.0.agendas && k !in t.agendas ==> k == r.1
    ensures t.Valid() ==> r.0.Valid() && VerificarExistenciaAgenda(r.0, mes, anio, cedula) == Some(r.1)
    ensures t.Valid() && OneAgendaPerMonth(t) ==> OneAgendaPerMonth(r.0)
  {
    match VerificarExistenciaAgenda(t, mes, anio, cedula)
    case Some(a) => (t, a)
    case None =>
      var row := Agenda(mes, anio, cedula);
      var t' := t.InsertAgenda(row);
      assert t.Valid() ==> VerificarExistenciaAgenda(t', mes, anio, cedula) == Some(t.nextId) by {
        if t.Valid() {
          SelectInsert(t.agendas, AgendaIs(mes, anio, cedula), t.nextId, row);
        }
      }
      assert t.Valid() && OneAgendaPerMonth(t) ==> OneAgendaPerMonth(t') by {
        if t.Valid() && OneAgendaPerMonth(t) {
          InsertAgendaKeepsOne(t, row);
        }
      }
      (t', t.nextId)
  }

  /** `verificarExistenciaDiaAgenda`, falling back to `createDiaAgenda`: the
      tables and the id of the agenda's day. */
  function DiaFor(t: Tables, agendaId: int, dia: int): (r: (Tables, int))
    ensures r.1 in r.0.dias && r.0.dias[r.1] == DiaAgenda(dia, agendaId)
    ensures Grows(t, r.0) && r.0.agendas == t.agendas && r.0.turnos == t.turnos
    ensures VerificarExistenciaDiaAgenda(t, agendaId, dia).Some? <==> r.0 == t
    ensures forall k :: k in r.0.dias && k !in t.dias ==> k == r.1
    ensures t.Valid() ==> r.0.Valid() && VerificarExistenciaDiaAgenda(r.0, agendaId, dia) == Some(r.1)
    ensures t.Valid() && OneDiaPerDay(t) ==> OneDiaPerDay(r.0)
  {
    match VerificarExistenciaDiaAgenda(t, agendaId, dia)
    case Some(d) => (t, d)
    case None =>
      var row := DiaAgenda(dia, agendaId);
      var t' := t.InsertDia(row);
      assert t.Valid() ==> VerificarExistenciaDiaAgenda(t', agendaId, dia) == Some(t.nextId) by {
        if t.Valid() {
          SelectInsert(t.dias, DiaIs(agendaId, dia), t.nextId, row);
        }
      }
      assert t.Valid() && OneDiaPerDay(t) ==> OneDiaPerDay(t') by {
        if t.Valid() && OneDiaPerDay(t) {
          InsertDiaKeepsOne(t, row);
        }
      }
      (t', t.nextId)
  }

  /** The agenda already holds a day for the code and that day a slot at the
      code's start time, as the upsert's own lookups see them.  The duration
      field plays no part. */
  predicate Covers(t: Tables, agendaId: int, code: string) {
    && Dia(code).Some?
    && HoraInicio(code).Some?
    && var d := VerificarExistenciaDiaAgenda(t, agendaId, Dia(code).value);
       d.Some? && VerificarExistenciaTurno(t, HoraInicio(code).value, d.value).Some?
  }

  /** `verificarExistenciaTurno`, falling back to `createTurno`: a new slot is
      free; an existing slot is left as it is, whatever duration is asked for. */
  function TurnoFor(t: Tables, diaId: int, horaInicio: string, duracion: int): (r: Tables)
    ensures Grows(t, r) && r.agendas == t.agendas && r.dias == t.dias
    ensures VerificarExistenciaTurno(t, horaInicio, diaId).Some? <==> r == t
    ensures forall k :: k in r.turnos && k !in t.turnos ==> r.turnos[k] == Turno(horaInicio, duracion, diaId, false)
    ensures t.Valid() ==> r.Valid() && VerificarExistenciaTurno(r, horaInicio, diaId).Some?
    ensures t.Valid() && OneTurnoPerStart(t) ==> OneTurnoPerStart(r)
  {
    match VerificarExistenciaTurno(t, horaInicio, diaId)
    case Some(_) => t
    case None =>
      var row := Turno(horaInicio, duracion, diaId, false);
      var t' := t.InsertTurno(row);
      assert t.Valid() ==> VerificarExistenciaTurno(t', horaInicio, diaId) == Some(t.nextId) by {
        if t.Valid() {
          SelectInsert(t.turnos, TurnoAt(horaInicio, diaId), t.nextId, row);
        }
      }
      assert t.Valid() && OneTurnoPerStart(t) ==> OneTurnoPerStart(t') by {
        if t.Valid() && OneTurnoPerStart(t) {
          InsertTurnoKeepsOne(t, row);
        }
      }
      t'
  }

  /** Where the upsert stands: the tables it has written so far, and whether
      it got through every code (`false`: a `substring` or an
      `Integer.parseInt` threw, the request ended with an error, and the rows
      saved before the exception stay). */
  datatype Upsert = Upsert(tables: Tables, completed: bool)

  /** One iteration of the upsert loop: read the day (or fail), find or create
      it, read the start time (or fail), and when the day has no slot at that
      start, read the duration (or fail) and create the slot. */
  function AddSlot(t: Tables, agendaId: int, code: string): (r: Upsert)
    ensures Grows(t, r.tables) && r.tables.agendas == t.agendas
    ensures Covers(t, agendaId, code) ==> r == Upsert(t, true)
    ensures WellFormed(code) ==> r.completed
    ensures Dia(code).None? ==> r == Upsert(t, false)
    ensures HoraInicio(code).None? ==> !r.completed && r.tables.turnos == t.turnos
    ensures Duracion(code).None? ==> r.tables.turnos == t.turnos
    ensures forall k :: k in r.tables.dias && k !in t.dias ==>
      Dia(code).Some? && r.tables.dias[k] == DiaAgenda(Dia(code).value, agendaId)
    ensures forall k :: k in r.tables.turnos && k !in t.turnos ==>
      && Dia(code).Some?
      && HoraInicio(code) == Some(r.tables.turnos[k].horaInicio)
      && Duracion(code) == Some(r.tables.turnos[k].duracion)
      && !r.tables.turnos[k].estado
      && r.tables.turnos[k].diaAgenda in r.tables.dias
      && r.tables.dias[r.tables.turnos[k].diaAgenda] == DiaAgenda(Dia(code).value, agendaId)
    ensures t.Valid() ==> r.tables.Valid()
    ensures t.Valid() && Dia(code).Some? ==> VerificarExistenciaDiaAgenda(r.tables, agendaId, Dia(code).value).Some?
    ensures t.Valid() && r.completed ==> Covers(r.tables, agendaId, code)
    ensures t.Valid() && !r.completed && Dia(code).Some? && HoraInicio(code).Some? ==>
      Duracion(code).None? && !Covers(r.tables, agendaId, code)
    ensures t.Valid() && Unique(t) ==> Unique(r.tables)
  {
    match Dia(code)
    case None => Upsert(t, false)
    case Some(dia) =>
      var (t1, diaId) := DiaFor(t, agendaId, dia);
      match HoraInicio(code)
      case None => Upsert(t1, false)
      case Some(hora) =>
        if VerificarExistenciaTurno(t1, hora, diaId).Some? then Upsert(t1, true)
        else
          match Duracion(code)
          case None => Upsert(t1, false)
          case Some(duracion) =>
            var r := TurnoFor(t1, diaId, hora, duracion);
            GrowsTrans(t, t1, r);
            assert t.Valid() ==> VerificarExistenciaDiaAgenda(r, agendaId, dia) == Some(diaId) by {
              if t.Valid() {
                FirstStable(t1.dias, r.dias, DiaIs(agendaId, dia), t1.nextId, r.nextId);
              }
            }
            Upsert(r, true)
  }

  /** A code that throws throws again, at the same point, on the tables it
      left: the day it found or created is found this time. */
  lemma AddSlotFailsAgain(t: Tables, agendaId: int, code: string)
    requires t.Valid() && !AddSlot(t, agendaId, code).completed
    ensures var r := AddSlot(t, agendaId, code);
      AddSlot(r.tables, agendaId, code) == r
  {
    if Dia(code).Some? {
      var r := AddSlot(t, agendaId, code);
      var (t1, diaId) := DiaFor(t, agendaId, Dia(code).value);
      assert r.tables == t1;
      assert DiaFor(t1, agendaId, Dia(code).value) == (t1, diaId);
    }
  }

  /** A code the agenda covers stays covered, by the same day and slot, while
      the tables only gain rows. */
  lemma CoversGrow(t: Tables, t': Tables, agendaId: int, code: string)
    requires Grows(t, t') && Covers(t, agendaId, code)
    ensures Covers(t', agendaId, code)
    ensures VerificarExistenciaDiaAgenda(t', agendaId, Dia(code).value) == VerificarExistenciaDiaAgenda(t, agendaId, Dia(code).value)
  {
    var dia, hora := Dia(code).value, HoraInicio(code).value;
    FirstStable(t.dias, t'.dias, DiaIs(agendaId, dia), t.nextId, t'.nextId);
    var d := VerificarExistenciaDiaAgenda(t, agendaId, dia).value;
    FirstStable(t.turnos, t'.turnos, TurnoAt(hora, d), t.nextId, t'.nextId);
  }

  /** The upsert loop over `codes`: one AddSlot per code in order, stopping at
      the first code that throws. */
  function AddSlots(t: Tables, agendaId: int, codes: seq<string>): (r: Upsert)
    ensures Grows(t, r.tables) && r.tables.agendas == t.agendas
    ensures t.Valid() ==> r.tables.Valid()
    decreases |codes|
  {
    if codes == [] then Upsert(t, true)
    else
      var s := AddSlot(t, agendaId, codes[0]);
      if !s.completed then s
      else
        var r := AddSlots(s.tables, agendaId, codes[1..]);
        GrowsTrans(t, s.tables, r.tables);
        r
  }

  /** The agenda covers every code of `codes`. */
  predicate CoversAll(t: Tables, agendaId: int, codes: seq<string>) {
    forall i :: 0 <= i < |codes| ==> Covers(t, agendaId, codes[i])
  }

  /** Coverage of the first code, carried to grown tables, and of the rest. */
  lemma CoversCons(s: Tables, r: Tables, agendaId: int, codes: seq<string>)
    requires codes != [] && Grows(s, r) && Covers(s, agendaId, codes[0])
    requires CoversAll(r, agendaId, codes[1..])
    ensures CoversAll(r, agendaId, codes)
  {
    CoversGrow(s, r, agendaId, codes[0]);
    forall i | 0 < i < |codes| ensures Covers(r, agendaId, codes[i]) {
      assert codes[i] == codes[1..][i - 1];
    }
  }

  /** A loop that gets through every code leaves every code covered. */
  lemma {:induction false} AddSlotsCovers(t: Tables, agendaId: int, codes: seq<string>)
    requires t.Valid()
    ensures var r := AddSlots(t, agendaId, codes);
      r.completed ==> CoversAll(r.tables, agendaId, codes)
    decreases |codes|
  {
    if codes != [] {
      var s := AddSlot(t, agendaId, codes[0]);
      if s.completed {
        AddSlotsCovers(s.tables, agendaId, codes[1..]);
        var r := AddSlots(s.tables, agendaId, codes[1..]);
        if r.completed {
          CoversCons(s.tables, r.tables, agendaId, codes);
        }
      }
    }
  }

  /** The loop gets through every code when every code can be read in full. */
  lemma {:induction false} AddSlotsCompletes(t: Tables, agendaId: int, codes: seq<string>)
    requires forall i :: 0 <= i < |codes| ==> WellFormed(codes[i])
    ensures AddSlots(t, agendaId, codes).completed
    decreases |codes|
  {
    if codes != [] {
      var s := AddSlot(t, agendaId, codes[0]);
      assert forall i :: 0 <= i < |codes| - 1 ==> codes[1..][i] == codes[i + 1];
      AddSlotsCompletes(s.tables, agendaId, codes[1..]);
    }
  }

  /** The tail of a prefix is a prefix of the tail. */
  lemma PrefixTail(codes: seq<string>, j: int)
    requires 0 <= j < |codes|
    ensures codes[..j + 1][0] == codes[0] && codes[..j + 1][1..] == codes[1..][..j]
  {
  }

  /** A loop that throws does so at a code that cannot be read in full, after
      every code before it has been covered: the rows already saved stay. */
  lemma {:induction false} AddSlotsFails(t: Tables, agendaId: int, codes: seq<string>)
    requires t.Valid()
    ensures var r := AddSlots(t, agendaId, codes);
      !r.completed ==> exists j :: 0 <= j < |codes| && !WellFormed(codes[j]) && CoversAll(r.tables, agendaId, codes[..j])
    decreases |codes|
  {
    if codes != [] {
      var s := AddSlot(t, agendaId, codes[0]);
      if !s.completed {
        assert CoversAll(s.tables, agendaId, codes[..0]);
      } else {
        var rest := codes[1..];
        var r := AddSlots(s.tables, agendaId, rest);
        AddSlotsFails(s.tables, agendaId, rest);
        if !r.completed {
          var j :| 0 <= j < |rest| && !WellFormed(rest[j]) && CoversAll(r.tables, agendaId, rest[..j]);
          var done := codes[..j + 1];
          PrefixTail(codes, j);
          CoversCons(s.tables, r.tables, agendaId, done);
          assert codes[j + 1] == rest[j];
          assert !WellFormed(codes[j + 1]) && CoversAll(r.tables, agendaId, codes[..j + 1]);
        }
      }
    }
  }

  /** The loop changes nothing and completes when the agenda already covers
      every code. */
  lemma {:induction false} AddSlotsCovered(t: Tables, agendaId: int, codes: seq<string>)
    requires forall i :: 0 <= i < |codes| ==> Covers(t, agendaId, codes[i])
    ensures AddSlots(t, agendaId, codes) == Upsert(t, true)
  {
    if codes != [] {
      assert forall i :: 0 <= i < |codes| - 1 ==> codes[1..][i] == codes[i + 1];
      AddSlotsCovered(t, agendaId, codes[1..]);
    }
  }

  /** Running the loop again on what it left, with the same codes, changes
      nothing and ends the same way. */
  lemma {:induction false} AddSlotsAgain(t: Tables, agendaId: int, codes: seq<string>)
    requires t.Valid()
    ensures var r := AddSlots(t, agendaId, codes);
      AddSlots(r.tables, agendaId, codes) == r
    decreases |codes|
  {
    if codes != [] {
      var s := AddSlot(t, agendaId, codes[0]);
      if s.completed {
        var r := AddSlots(s.tables, agendaId, codes[1..]);
        AddSlotsAgain(s.tables, agendaId, codes[1..]);
        CoversGrow(s.tables, r.tables, agendaId, codes[0]);
        assert AddSlot(r.tables, agendaId, codes[0]) == Upsert(r.tables, true);
      }
    }
  }

  /** The loop keeps days and slots unique. */
  lemma {:induction false} AddSlotsUnique(t: Tables, agendaId: int, codes: seq<string>)
    requires t.Valid() && Unique(t)
    ensures Unique(AddSlots(t, agendaId, codes).tables)
    decreases |codes|
  {
    if codes != [] {
      var s := AddSlot(t, agendaId, codes[0]);
      if s.completed {
        AddSlotsUnique(s.tables, agendaId, codes[1..]);
      }
    }
  }

  /** POST especialista/{cedula}/agenda (`createHorario`): find or create the
      agenda of the month, then upsert every code into it. */
  function CreateHorario(t: Tables, cedula: string, anio: int, mes: int, codes: seq<string>): (r: Upsert)
    requires t.Valid()
    ensures r.tables.Valid() && Grows(t, r.tables)
    ensures VerificarExistenciaAgenda(r.tables, mes, anio, cedula).Some?
    ensures forall k :: k in r.tables.agendas && k !in t.agendas ==> r.tables.agendas[k] == Agenda(mes, anio, cedula)
  {
    var (ta, a) := AgendaFor(t, cedula, anio, mes);
    var r := AddSlots(ta, a, codes);
    GrowsTrans(t, ta, r.tables);
    assert VerificarExistenciaAgenda(r.tables, mes, anio, cedula) == Some(a) by {
      FirstStable(ta.agendas, r.tables.agendas, AgendaIs(mes, anio, cedula), ta.nextId, r.tables.nextId);
    }
    r
  }

  // Deleting rows.

  /** DELETE agenda/{agendaId} (`deleteAgenda`): only the agenda row goes; its
      days and slots stay where they are. */
  function DeleteAgenda(t: Tables, id: int): (o: Outcome)
    ensures o.reply == Succeeded() <==> id in t.agendas
    ensures id !in t.agendas ==> o == Outcome(Failed(AGENDA_NOT_FOUND), t)
    ensures id in t.agendas ==>
      && o.tables.agendas.Keys == t.agendas.Keys - {id}
      && (forall k :: k in o.tables.agendas ==> o.tables.agendas[k] == t.agendas[k])
      && o.tables == t.(agendas := o.tables.agendas)
    ensures t.Valid() ==> o.tables.Valid()
  {
    if id in t.agendas then Outcome(Succeeded(), t.(agendas := t.agendas - {id}))
    else Outcome(Failed(AGENDA_NOT_FOUND), t)
  }

  /** DELETE agenda/dia/{diaAgendaId} (`deleteDiaAgenda`): only the day row goes. */
  function DeleteDiaAgenda(t: Tables, id: int): (o: Outcome)
    ensures o.reply == Succeeded() <==> id in t.dias
    ensures id !in t.dias ==> o == Outcome(Failed(DIA_AGENDA_NOT_FOUND), t)
    ensures id in t.dias ==>
      && o.tables.dias.Keys == t.dias.Keys - {id}
      && (forall k :: k in o.tables.dias ==> o.tables.dias[k] == t.dias[k])
      && o.tables == t.(dias := o.tables.dias)
    ensures t.Valid() ==> o.tables.Valid()
  {
    if id in t.dias then Outcome(Succeeded(), t.(dias := t.dias - {id}))
    else Outcome(Failed(DIA_AGENDA_NOT_FOUND), t)
  }

  /** DELETE agenda/turno/{turnoId} (`deleteTurno`); its not-found response
      carries the TURNO_NOT_FOUND message with the TURNO_ALREADY_EXISTS code. */
  function DeleteTurno(t: Tables, id: int): (o: Outcome)
    ensures o.reply == Succeeded() <==> id in t.turnos
    ensures id !in t.turnos ==> o == Outcome(Full(FAILED, TURNO_NOT_FOUND, TURNO_ALREADY_EXISTS), t)
    ensures id in t.turnos ==>
      && o.tables.turnos.Keys == t.turnos.Keys - {id}
      && (forall k :: k in o.tables.turnos ==> o.tables.turnos[k] == t.turnos[k])
      && o.tables == t.(turnos := o.tables.turnos)
    ensures t.Valid() ==> o.tables.Valid()
  {
    if id in t.turnos then Outcome(Succeeded(), t.(turnos := t.turnos - {id}))
    else Outcome(Full(FAILED, TURNO_NOT_FOUND, TURNO_ALREADY_EXISTS), t)
  }

  /** A second delete of the same agenda reports it missing and changes nothing. */
  lemma DeleteAgendaTwice(t: Tables, id: int)
    ensures var t1 := DeleteAgenda(t, id).tables;
      DeleteAgenda(t1, id) == Outcome(Failed(AGENDA_NOT_FOUND), t1)
  {
  }

  /** A second delete of the same day reports it missing and changes nothing. */
  lemma DeleteDiaAgendaTwice(t: Tables, id: int)
    ensures var t1 := DeleteDiaAgenda(t, id).tables;
      DeleteDiaAgenda(t1, id) == Outcome(Failed(DIA_AGENDA_NOT_FOUND), t1)
  {
  }

  /** A second delete of the same slot reports it missing and changes nothing. */
  lemma DeleteTurnoTwice(t: Tables, id: int)
    ensures var t1 := DeleteTurno(t, id).tables;
      DeleteTurno(t1, id) == Outcome(Full(FAILED, TURNO_NOT_FOUND, TURNO_ALREADY_EXISTS), t1)
  {
  }
}
