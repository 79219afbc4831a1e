/** The agenda endpoints.  The listing walks the repositories with three nested
    loops that append to the response lists, as the controller does; the
    schedule upsert loops over the submitted codes; the deletes check that the
    row exists before removing it.  Each is proved to compute what the matching
    AgendaModel function says. */
module AgendaController {
  import opened Wrappers
  import opened Defines
  import opened Store
  import opened SlotCode
  import opened Persistence
  import opened AgendaModel

  /** The innermost loop of the listing: the slots of day `diaId`, copied in
      repository order. */
  method CollectTurnos(db: Database, diaId: int) returns (turnoList: seq<TurnoData>)
    ensures turnoList == TurnoList(db.Contents(), FindByDiaAgenda(db.Contents(), diaId))
  {
    var turnos := FindByDiaAgenda(db.Contents(), diaId);
    turnoList := [];
    for k := 0 to |turnos|
      invariant turnoList == TurnoList(db.Contents(), turnos[..k])
    {
      TurnoListStep(db.Contents(), turnos, k);
      var turno := db.turnos[turnos[k]];
      turnoList := turnoList + [TurnoData(turnos[k], turno.horaInicio, turno.duracion, turno.estado)];
    }
    assert turnos[..|turnos|] == turnos;
  }

  /** One more id of a slot listing. */
  lemma TurnoListStep(t: Tables, ids: seq<int>, k: int)
    requires 0 <= k < |ids| && forall i :: 0 <= i < |ids| ==> ids[i] in t.turnos
    ensures TurnoList(t, ids[..k + 1]) == TurnoList(t, ids[..k]) + [TurnoView(ids[k], t.turnos[ids[k]])]
  {
    assert ids[..k + 1][..k] == ids[..k];
  }

  /** One more id of a day listing. */
  lemma DiaListStep(t: Tables, ids: seq<int>, j: int, now: Calendar)
    requires 0 <= j < |ids| && forall i :: 0 <= i < |ids| ==> ids[i] in t.dias
    ensures DiaList(t, ids[..j + 1], now)
      == DiaList(t, ids[..j], now) + (if IsUpcomingDay(t.dias[ids[j]], now) then [DiaView(t, ids[j])] else [])
  {
    assert ids[..j + 1][..j] == ids[..j];
  }

  /** One more id of an agenda listing. */
  lemma AgendaListStep(t: Tables, ids: seq<int>, i: int, now: Calendar)
    requires 0 <= i < |ids| && forall k :: 0 <= k < |ids| ==> ids[k] in t.agendas
    ensures AgendaList(t, ids[..i + 1], now)
      == AgendaList(t, ids[..i], now) + (if IsUpcoming(t.agendas[ids[i]], now) then [AgendaView(t, ids[i], now)] else [])
  {
    assert ids[..i + 1][..i] == ids[..i];
  }

  /** The middle loop of the listing: appends the listed days of agenda
      `agendaId` to the last entry of `agendaDataList`, the one just added for
      that agenda. */
  method AttachDias(db: Database, agendaDataList: seq<AgendaData>, agendaId: int, now: Calendar)
    returns (r: seq<AgendaData>)
    requires |agendaDataList| > 0 && agendaId in db.agendas
    requires agendaDataList[|agendaDataList| - 1]
      == AgendaData(agendaId, db.agendas[agendaId].mes, db.agendas[agendaId].anio, [])
    ensures r == agendaDataList[..|agendaDataList| - 1] + [AgendaView(db.Contents(), agendaId, now)]
  {
    var t := db.Contents();
    var n := |agendaDataList| - 1;
    var agenda := t.agendas[agendaId];
    var diasAgenda := FindByAgenda(t, agendaId);
    r := agendaDataList;
    for j := 0 to |diasAgenda|
      invariant |r| == n + 1 && r[..n] == agendaDataList[..n]
      invariant r[n] == AgendaData(agendaId, agenda.mes, agenda.anio, DiaList(t, diasAgenda[..j], now))
    {
      DiaListStep(t, diasAgenda, j, now);
      var dia := t.dias[diasAgenda[j]];
      if dia.dia >= now.date {
        var turnoList := CollectTurnos(db, diasAgenda[j]);
        var last := r[n];
        r := r[n := last.(diaAgendaList := last.diaAgendaList + [DiaAgendaData(diasAgenda[j], dia.dia, turnoList)])];
      }
    }
    assert diasAgenda[..|diasAgenda|] == diasAgenda;
    assert r == r[..n] + [r[n]];
  }

  /** GET /especialista/{cedula}/agenda (`getAgendaEspecialista`); `now` is the
      clock. */
  method GetAgendaEspecialista(db: Database, cedula: string, now: Calendar)
    returns (r: Result<seq<AgendaData>, GenericResponse>)
    requires db.Valid()
    ensures r == AgendaEspecialista(db.Contents(), cedula, now)
  {
    var t := db.Contents();
    var agendas := FindByEspecialista(t, cedula);
    if |agendas| == 0 {
      return Failure(Full(FAILED, NO_AGENDAS, NO_AREAS));
    }
    var agendaDataList: seq<AgendaData> := [];
    for i := 0 to |agendas|
      invariant agendaDataList == AgendaList(t, agendas[..i], now)
    {
      AgendaListStep(t, agendas, i, now);
      var agenda := t.agendas[agendas[i]];
      if agenda.anio >= now.year && agenda.mes >= now.month + 1 {
        var prefix := agendaDataList;
        agendaDataList := agendaDataList + [AgendaData(agendas[i], agenda.mes, agenda.anio, [])];
        agendaDataList := AttachDias(db, agendaDataList, agendas[i], now);
        assert agendaDataList == prefix + [AgendaView(t, agendas[i], now)];
      }
    }
    assert agendas[..|agendas|] == agendas;
    return Success(agendaDataList);
  }

  /** The agenda lookup of `createHorario`, falling back to `createAgenda`. */
  method FindOrCreateAgenda(db: Database, cedula: string, anio: int, mes: int) returns (agendaId: int)
    requires db.Valid()
    modifies db
    ensures db.Valid()
    ensures (db.Contents(), agendaId) == AgendaFor(old(db.Contents()), cedula, anio, mes)
  {
    var found := VerificarExistenciaAgenda(db.Contents(), mes, anio, cedula);
    if found.None? {
      agendaId := db.SaveNewAgenda(Agenda(mes, anio, cedula));
    } else {
      agendaId := found.value;
    }
  }

  /** The loop over the codes from `i` on: the code at `i`, then, unless it
      threw, the codes after it. */
  lemma AddSlotsStep(t: Tables, agendaId: int, codes: seq<string>, i: int)
    requires 0 <= i < |codes|
    ensures AddSlots(t, agendaId, codes[i..]) ==
      var s := AddSlot(t, agendaId, codes[i]);
      if s.completed then AddSlots(s.tables, agendaId, codes[i + 1..]) else s
  {
    assert codes[i..][0] == codes[i] && codes[i..][1..] == codes[i + 1..];
  }

  /** One iteration of the `createHorario` loop: read the day field, find or
      create its day, read the start-time field, and when the day has no slot
      at that start, read the duration field and create the slot.  A field
      that cannot be read ends the request, as the exception does:
      `completed` is false and whatever was saved stays. */
  method UpsertSlot(db: Database, agendaId: int, code: string) returns (completed: bool)
    requires db.Valid()
    modifies db
    ensures db.Valid()
    ensures Upsert(db.Contents(), completed) == AddSlot(old(db.Contents()), agendaId, code)
  {
    var dia := Dia(code);
    if dia.None? {
      return false;
    }
    var diaAgenda := VerificarExistenciaDiaAgenda(db.Contents(), agendaId, dia.value);
    var diaId;
    if diaAgenda.None? {
      diaId := db.SaveNewDia(DiaAgenda(dia.value, agendaId));
    } else {
      diaId := diaAgenda.value;
    }
    var horaInicio := HoraInicio(code);
    if horaInicio.None? {
      return false;
    }
    var turno := VerificarExistenciaTurno(db.Contents(), horaInicio.value, diaId);
    if turno.None? {
      var duracion := Duracion(code);
      if duracion.None? {
        return false;
      }
      var _ := db.SaveNewTurno(Turno(horaInicio.value, duracion.value, diaId, false));
    }
    return true;
  }

  /** POST especialista/{cedula}/agenda (`createHorario`): find or create the
      month's agenda, then upsert every code into it, in order, stopping at the
      first code that throws. */
  method CreateHorario(db: Database, cedula: string, anio: int, mes: int, turnos: seq<string>)
    returns (completed: bool)
    requires db.Valid()
    modifies db
    ensures db.Valid()
    ensures Upsert(db.Contents(), completed) == AgendaModel.CreateHorario(old(db.Contents()), cedula, anio, mes, turnos)
  {
    var agendaId := FindOrCreateAgenda(db, cedula, anio, mes);
    ghost var start := db.Contents();
    for i := 0 to |turnos|
      invariant db.Valid()
      invariant AddSlots(db.Contents(), agendaId, turnos[i..]) == AddSlots(start, agendaId, turnos)
    {
      AddSlotsStep(db.Contents(), agendaId, turnos, i);
      completed := UpsertSlot(db, agendaId, turnos[i]);
      if !completed {
        return;
      }
    }
    assert turnos[|turnos|..] == [];
    return true;
  }

  /** DELETE agenda/{agendaId} (`deleteAgenda`). */
  method DeleteAgenda(db: Database, agendaId: int) returns (respuesta: GenericResponse)
    requires db.Valid()
    modifies db
    ensures db.Valid()
    ensures Outcome(respuesta, db.Contents()) == AgendaModel.DeleteAgenda(old(db.Contents()), agendaId)
  {
    if agendaId !in db.agendas {
      return Failed(AGENDA_NOT_FOUND);
    }
    db.DeleteAgenda(agendaId);
    return Succeeded();
  }

  /** DELETE agenda/dia/{diaAgendaId} (`deleteDiaAgenda`). */
  method DeleteDiaAgenda(db: Database, diaAgendaId: int) returns (respuesta: GenericResponse)
    requires db.Valid()
    modifies db
    ensures db.Valid()
    ensures Outcome(respuesta, db.Contents()) == AgendaModel.DeleteDiaAgenda(old(db.Contents()), diaAgendaId)
  {
    if diaAgendaId !in db.dias {
      return Failed(DIA_AGENDA_NOT_FOUND);
    }
    db.DeleteDia(diaAgendaId);
    return Succeeded();
  }

  /** DELETE agenda/turno/{turnoId} (`deleteTurno`). */
  method DeleteTurno(db: Database, turnoId: int) returns (respuesta: GenericResponse)
    requires db.Valid()
    modifies db
    ensures db.Valid()
    ensures Outcome(respuesta, db.Contents()) == AgendaModel.DeleteTurno(old(db.Contents()), turnoId)
  {
    if turnoId !in db.turnos {
      return Full(FAILED, TURNO_NOT_FOUND, TURNO_ALREADY_EXISTS);
    }
    db.DeleteTurno(turnoId);
    return Succeeded();
  }
}
