/** What publishing a schedule guarantees: a request that gets through every
    code leaves each of them with exactly one day and one slot; a request that
    throws has covered every code before the one that threw; a second
    identical request changes nothing and ends the same way; existing rows
    are never altered; and every new row comes from the request. */
module AgendaProperties {
  import opened Wrappers
  import opened Store
  import opened SlotCode
  import opened AgendaModel

  /** The agenda `createHorario` upserts into. */
  function AgendaOf(t: Tables, cedula: string, anio: int, mes: int, codes: seq<string>): (a: int)
    requires t.Valid()
    ensures a in CreateHorario(t, cedula, anio, mes, codes).tables.agendas
    ensures CreateHorario(t, cedula, anio, mes, codes).tables.agendas[a] == Agenda(mes, anio, cedula)
  {
    VerificarExistenciaAgenda(CreateHorario(t, cedula, anio, mes, codes).tables, mes, anio, cedula).value
  }

  /** The agenda of the month is the one found before the loop, or the one
      created for the request. */
  lemma AgendaOfIsFound(t: Tables, cedula: string, anio: int, mes: int, codes: seq<string>)
    requires t.Valid()
    ensures AgendaOf(t, cedula, anio, mes, codes) == AgendaFor(t, cedula, anio, mes).1
  {
    var (ta, a) := AgendaFor(t, cedula, anio, mes);
    var r := CreateHorario(t, cedula, anio, mes, codes).tables;
    FirstStable(ta.agendas, r.agendas, AgendaIs(mes, anio, cedula), ta.nextId, r.nextId);
  }

  /** A request that gets through every code leaves the month's agenda
      covering every submitted code. */
  lemma CreateHorarioCovers(t: Tables, cedula: string, anio: int, mes: int, codes: seq<string>)
    requires t.Valid()
    ensures var r := CreateHorario(t, cedula, anio, mes, codes);
      r.completed ==> CoversAll(r.tables, AgendaOf(t, cedula, anio, mes, codes), codes)
  {
    var (ta, a) := AgendaFor(t, cedula, anio, mes);
    AgendaOfIsFound(t, cedula, anio, mes, codes);
    AddSlotsCovers(ta, a, codes);
  }

  /** A request whose codes can all be read in full gets through every code. */
  lemma CreateHorarioCompletes(t: Tables, cedula: string, anio: int, mes: int, codes: seq<string>)
    requires t.Valid() && forall i :: 0 <= i < |codes| ==> WellFormed(codes[i])
    ensures CreateHorario(t, cedula, anio, mes, codes).completed
  {
    var (ta, a) := AgendaFor(t, cedula, anio, mes);
    AddSlotsCompletes(ta, a, codes);
  }

  /** A request that throws does so at a code that cannot be read in full,
      and the month's agenda and the days and slots of every code before it
      are saved. */
  lemma CreateHorarioFails(t: Tables, cedula: string, anio: int, mes: int, codes: seq<string>)
    requires t.Valid()
    ensures var r := CreateHorario(t, cedula, anio, mes, codes);
      !r.completed ==>
        exists j :: 0 <= j < |codes| && !WellFormed(codes[j]) && CoversAll(r.tables, AgendaOf(t, cedula, anio, mes, codes), codes[..j])
  {
    var (ta, a) := AgendaFor(t, cedula, anio, mes);
    AgendaOfIsFound(t, cedula, anio, mes, codes);
    AddSlotsFails(ta, a, codes);
  }

  /** Sending the same schedule twice changes nothing the second time, and the
      second request ends as the first did: it throws at the same code or
      gets through them all. */
  lemma CreateHorarioIdempotent(t: Tables, cedula: string, anio: int, mes: int, codes: seq<string>)
    requires t.Valid()
    ensures var r := CreateHorario(t, cedula, anio, mes, codes);
      CreateHorario(r.tables, cedula, anio, mes, codes) == r
  {
    var (ta, a) := AgendaFor(t, cedula, anio, mes);
    var r := CreateHorario(t, cedula, anio, mes, codes);
    AgendaOfIsFound(t, cedula, anio, mes, codes);
    assert AgendaFor(r.tables, cedula, anio, mes) == (r.tables, a);
    AddSlotsAgain(ta, a, codes);
  }

  /** At most one agenda per month, one day per agenda and day of the month,
      and one slot per day and start time, as long as the tables started so,
      whether or not the request throws. */
  lemma CreateHorarioUnique(t: Tables, cedula: string, anio: int, mes: int, codes: seq<string>)
    requires t.Valid() && Unique(t)
    ensures Unique(CreateHorario(t, cedula, anio, mes, codes).tables)
  {
    var (ta, a) := AgendaFor(t, cedula, anio, mes);
    AddSlotsUnique(ta, a, codes);
  }

  /** In a table with one day per (agenda, day of the month), a day row
      identifies its id. */
  lemma OnlyDia(t: Tables, d: int)
    requires OneDiaPerDay(t) && d in t.dias
    ensures forall d' :: d' in t.dias && t.dias[d'] == t.dias[d] <==> d' == d
  {
  }

  /** In a table with one slot per (day, start time), a day and start time
      identify the slot. */
  lemma OnlyTurno(t: Tables, k: int)
    requires OneTurnoPerStart(t) && k in t.turnos
    ensures forall k' :: (k' in t.turnos && t.turnos[k'].horaInicio == t.turnos[k].horaInicio
      && t.turnos[k'].diaAgenda == t.turnos[k].diaAgenda) <==> k' == k
  {
  }

  /** Given unique tables, after a request that completes each submitted code
      has exactly one day in the month's agenda: the one the upsert's lookup
      finds. */
  lemma CreateHorarioOneDia(t: Tables, cedula: string, anio: int, mes: int, codes: seq<string>, i: int)
    requires t.Valid() && Unique(t) && 0 <= i < |codes|
    ensures var r := CreateHorario(t, cedula, anio, mes, codes);
      var a := AgendaOf(t, cedula, anio, mes, codes);
      r.completed ==>
        && Dia(codes[i]).Some?
        && var d := VerificarExistenciaDiaAgenda(r.tables, a, Dia(codes[i]).value);
           d.Some? && forall d' :: d' in r.tables.dias && r.tables.dias[d'] == DiaAgenda(Dia(codes[i]).value, a) <==> d' == d.value
  {
    var r := CreateHorario(t, cedula, anio, mes, codes);
    var a := AgendaOf(t, cedula, anio, mes, codes);
    CreateHorarioCovers(t, cedula, anio, mes, codes);
    CreateHorarioUnique(t, cedula, anio, mes, codes);
    if r.completed {
      assert Covers(r.tables, a, codes[i]);
      OnlyDia(r.tables, VerificarExistenciaDiaAgenda(r.tables, a, Dia(codes[i]).value).value);
    }
  }

  /** Given unique tables, after a request that completes the day of each
      submitted code holds exactly one slot at the code's start time: the one
      the upsert's lookup finds. */
  lemma CreateHorarioOneTurno(t: Tables, cedula: string, anio: int, mes: int, codes: seq<string>, i: int)
    requires t.Valid() && Unique(t) && 0 <= i < |codes|
    ensures var r := CreateHorario(t, cedula, anio, mes, codes);
      var a := AgendaOf(t, cedula, anio, mes, codes);
      r.completed ==>
        && Dia(codes[i]).Some? && HoraInicio(codes[i]).Some?
        && var hora := HoraInicio(codes[i]).value;
           var d := VerificarExistenciaDiaAgenda(r.tables, a, Dia(codes[i]).value);
           && d.Some? && VerificarExistenciaTurno(r.tables, hora, d.value).Some?
           && forall k' :: k' in r.tables.turnos && r.tables.turnos[k'].horaInicio == hora && r.tables.turnos[k'].diaAgenda == d.value
                <==> k' == VerificarExistenciaTurno(r.tables, hora, d.value).value
  {
    var r := CreateHorario(t, cedula, anio, mes, codes);
    var a := AgendaOf(t, cedula, anio, mes, codes);
    CreateHorarioCovers(t, cedula, anio, mes, codes);
    CreateHorarioUnique(t, cedula, anio, mes, codes);
    if r.completed {
      assert Covers(r.tables, a, codes[i]);
      var hora := HoraInicio(codes[i]).value;
      var d := VerificarExistenciaDiaAgenda(r.tables, a, Dia(codes[i]).value).value;
      OnlyTurno(r.tables, VerificarExistenciaTurno(r.tables, hora, d).value);
    }
  }

  /** Rows that existed before `createHorario` are left exactly as they were,
      whether or not it throws: in particular an existing slot keeps its
      duration and its taken flag, whatever duration the code carries. */
  lemma CreateHorarioKeepsRows(t: Tables, cedula: string, anio: int, mes: int, codes: seq<string>, k: int)
    requires t.Valid()
    ensures var r := CreateHorario(t, cedula, anio, mes, codes).tables;
      && (k in t.agendas ==> k in r.agendas && r.agendas[k] == t.agendas[k])
      && (k in t.dias ==> k in r.dias && r.dias[k] == t.dias[k])
      && (k in t.turnos ==> k in r.turnos && r.turnos[k] == t.turnos[k])
      && r.citas == t.citas
  {
  }

  /** Tables that grow from valid tables keep every day and slot they had. */
  lemma GrowsKeeps(t: Tables, t': Tables)
    requires t.Valid() && Grows(t, t')
    ensures forall k :: k in t.dias ==> k in t'.dias && t'.dias[k] == t.dias[k]
    ensures forall k :: k in t.turnos ==> k in t'.turnos && t'.turnos[k] == t.turnos[k]
  {
  }

  /** Every day in `r` but not in `t` belongs to the agenda and carries the
      day of one of `codes`. */
  ghost predicate DiasFrom(t: Tables, r: Tables, agendaId: int, codes: seq<string>) {
    forall k :: k in r.dias && k !in t.dias ==>
      r.dias[k].agenda == agendaId && exists i :: 0 <= i < |codes| && Dia(codes[i]) == Some(r.dias[k].dia)
  }

  /** Every slot in `r` but not in `t` is free, lies on a day of the agenda
      and carries the start time and duration of one of `codes`. */
  ghost predicate TurnosFrom(t: Tables, r: Tables, agendaId: int, codes: seq<string>) {
    forall k :: k in r.turnos && k !in t.turnos ==>
      && !r.turnos[k].estado
      && r.turnos[k].diaAgenda in r.dias
      && r.dias[r.turnos[k].diaAgenda].agenda == agendaId
      && exists i :: 0 <= i < |codes| && HoraInicio(codes[i]) == Some(r.turnos[k].horaInicio)
           && Duracion(codes[i]) == Some(r.turnos[k].duracion)
  }

  /** One step of the loop for days: the days the first code added, kept by
      the rest of the loop, and the days the rest added, come from `codes`. */
  lemma NewDiasStep(t: Tables, s: Tables, r: Tables, agendaId: int, codes: seq<string>)
    requires codes != [] && s.Valid() && Grows(s, r)
    requires DiasFrom(t, s, agendaId, codes[..1]) && DiasFrom(s, r, agendaId, codes[1..])
    ensures DiasFrom(t, r, agendaId, codes)
  {
    GrowsKeeps(s, r);
    forall k | k in r.dias && k !in t.dias
      ensures r.dias[k].agenda == agendaId && exists i :: 0 <= i < |codes| && Dia(codes[i]) == Some(r.dias[k].dia)
    {
      if k in s.dias {
        var i :| 0 <= i < 1 && Dia(codes[..1][i]) == Some(s.dias[k].dia);
        assert codes[..1][i] == codes[i];
      } else {
        var i :| 0 <= i < |codes| - 1 && Dia(codes[1..][i]) == Some(r.dias[k].dia);
        assert codes[1..][i] == codes[i + 1];
      }
    }
  }

  /** Every day the loop adds belongs to the agenda and carries the day of a
      submitted code, whether or not the loop throws. */
  lemma {:induction false} AddSlotsNewDias(t: Tables, agendaId: int, codes: seq<string>)
    requires t.Valid()
    ensures DiasFrom(t, AddSlots(t, agendaId, codes).tables, agendaId, codes)
    decreases |codes|
  {
    if codes != [] {
      var s := AddSlot(t, agendaId, codes[0]);
      assert codes[..1][0] == codes[0];
      assert DiasFrom(t, s.tables, agendaId, codes[..1]);
      if s.completed {
        var r := AddSlots(s.tables, agendaId, codes[1..]);
        AddSlotsNewDias(s.tables, agendaId, codes[1..]);
        NewDiasStep(t, s.tables, r.tables, agendaId, codes);
      } else {
        NewDiasStep(t, s.tables, s.tables, agendaId, codes);
      }
    }
  }

  /** One step of the loop for slots, in the manner of NewDiasStep. */
  lemma NewTurnosStep(t: Tables, s: Tables, r: Tables, agendaId: int, codes: seq<string>)
    requires codes != [] && s.Valid() && Grows(s, r)
    requires TurnosFrom(t, s, agendaId, codes[..1]) && TurnosFrom(s, r, agendaId, codes[1..])
    ensures TurnosFrom(t, r, agendaId, codes)
  {
    GrowsKeeps(s, r);
    forall k | k in r.turnos && k !in t.turnos
      ensures && !r.turnos[k].estado
        && r.turnos[k].diaAgenda in r.dias
        && r.dias[r.turnos[k].diaAgenda].agenda == agendaId
        && exists i :: 0 <= i < |codes| && HoraInicio(codes[i]) == Some(r.turnos[k].horaInicio)
             && Duracion(codes[i]) == Some(r.turnos[k].duracion)
    {
      if k in s.turnos {
        var i :| 0 <= i < 1 && HoraInicio(codes[..1][i]) == Some(s.turnos[k].horaInicio)
          && Duracion(codes[..1][i]) == Some(s.turnos[k].duracion);
        assert codes[..1][i] == codes[i];
      } else {
        var i :| 0 <= i < |codes| - 1 && HoraInicio(codes[1..][i]) == Some(r.turnos[k].horaInicio)
          && Duracion(codes[1..][i]) == Some(r.turnos[k].duracion);
        assert codes[1..][i] == codes[i + 1];
      }
    }
  }

  /** Every slot the loop adds is free, lies on a day of the agenda and
      carries the start time and duration of a submitted code, whether or not
      the loop throws. */
  lemma {:induction false} AddSlotsNewTurnos(t: Tables, agendaId: int, codes: seq<string>)
    requires t.Valid()
    ensures TurnosFrom(t, AddSlots(t, agendaId, codes).tables, agendaId, codes)
    decreases |codes|
  {
    if codes != [] {
      var s := AddSlot(t, agendaId, codes[0]);
      assert codes[..1][0] == codes[0];
      assert TurnosFrom(t, s.tables, agendaId, codes[..1]);
      if s.completed {
        var r := AddSlots(s.tables, agendaId, codes[1..]);
        AddSlotsNewTurnos(s.tables, agendaId, codes[1..]);
        NewTurnosStep(t, s.tables, r.tables, agendaId, codes);
      } else {
        NewTurnosStep(t, s.tables, s.tables, agendaId, codes);
      }
    }
  }

  /** The only agenda `createHorario` may add is the month's. */
  lemma CreateHorarioNewAgenda(t: Tables, cedula: string, anio: int, mes: int, codes: seq<string>)
    requires t.Valid()
    ensures var r := CreateHorario(t, cedula, anio, mes, codes).tables;
      forall k :: k in r.agendas && k !in t.agendas ==> k == AgendaOf(t, cedula, anio, mes, codes)
  {
    AgendaOfIsFound(t, cedula, anio, mes, codes);
  }
}
