/** What each appointment operation does to the tables, as functions of the
    tables before the request.  The methods of CitaController perform the same
    steps one repository call at a time and are proved equal to these. */
module CitaModel {
  import opened Wrappers
  import opened Defines
  import opened Store

  /** The request body of POST, PUT and PATCH on /cita.  A null client id is
      `None`; a missing slot or service id arrives as 0. */
  datatype CitaData = CitaData(clienteCedula: Option<string>, turnoId: int, servicioId: int)

  /** `validarDatos`: a client id, a slot id and a service id are all given. */
  predicate ValidarDatos(data: CitaData) {
    data.clienteCedula.Some? && data.turnoId != 0 && data.servicioId != 0
  }

  /** `cambiarEstadoTurno`: when the new slot is taken, reports a conflict and
      changes nothing; otherwise marks the new slot taken, then marks the slot
      with id `turnoActual` free, and reports no conflict. */
  function CambiarEstadoTurno(t: Tables, turnoActual: int, nuevo: int): (r: (bool, Tables))
    requires nuevo in t.turnos
    ensures r.0 <==> t.turnos[nuevo].estado
    ensures r.0 ==> r.1 == t
    ensures SameSchedule(t, r.1) && r.1.citas == t.citas && r.1.nextId == t.nextId
    ensures !r.0 && turnoActual != nuevo ==> r.1.turnos[nuevo].estado
    ensures !r.0 && turnoActual in t.turnos ==> !r.1.turnos[turnoActual].estado
    ensures forall k :: k in t.turnos && k != nuevo && k != turnoActual ==> r.1.turnos[k] == t.turnos[k]
    // Freeing the slot that was just taken undoes the whole swap.
    ensures !r.0 && turnoActual == nuevo ==> !r.1.turnos[nuevo].estado && r.1 == t
  {
    if t.turnos[nuevo].estado then (true, t)
    else (false, t.SetEstado(nuevo, true).SetEstado(turnoActual, false))
  }

  /** `createCita`, with `fecha` the creation time the clock supplies. */
  function Create(t: Tables, data: CitaData, fecha: int): (o: Outcome)
    ensures o.reply != Succeeded() ==> o.tables == t
    ensures !ValidarDatos(data) ==> o.reply == Failed(FALTAN_DATOS)
    ensures ValidarDatos(data) && data.clienteCedula.value !in t.clientes ==>
      o.reply == Failed(CUSTOMER_NOT_FOUND)
    ensures ValidarDatos(data) && data.clienteCedula.value in t.clientes && data.turnoId !in t.turnos ==>
      o.reply == Failed(TURNO_NOT_FOUND)
    ensures ValidarDatos(data) && data.clienteCedula.value in t.clientes && data.turnoId in t.turnos
            && data.servicioId !in t.servicios ==>
      o.reply == Failed(SERVICE_NOT_FOUND)
    ensures ValidarDatos(data) && data.clienteCedula.value in t.clientes && data.turnoId in t.turnos
            && data.servicioId in t.servicios && VerificarExistenciaCita(t, data.clienteCedula.value, data.turnoId) ==>
      o.reply == Failed(CITA_ALREADY_EXISTS)
    ensures ValidarDatos(data) && data.clienteCedula.value in t.clientes && data.turnoId in t.turnos
            && data.servicioId in t.servicios && !VerificarExistenciaCita(t, data.clienteCedula.value, data.turnoId)
            && t.turnos[data.turnoId].estado ==>
      o.reply == Failed(TURNO_ASIGNADO)
    ensures o.reply == Succeeded() <==>
      && ValidarDatos(data)
      && data.clienteCedula.value in t.clientes
      && data.turnoId in t.turnos
      && data.servicioId in t.servicios
      && !VerificarExistenciaCita(t, data.clienteCedula.value, data.turnoId)
      && !t.turnos[data.turnoId].estado
    ensures o.reply == Succeeded() ==>
      && SameSchedule(t, o.tables)
      && o.tables.nextId == t.nextId + 1
      && o.tables.citas == t.citas[t.nextId := Cita(data.clienteCedula.value, data.turnoId, fecha, data.servicioId)]
      && o.tables.turnos[data.turnoId].estado
      && (forall k :: k in t.turnos && k != data.turnoId ==> o.tables.turnos[k] == t.turnos[k])
  {
    if !ValidarDatos(data) then Outcome(Failed(FALTAN_DATOS), t)
    else
      var cliente, turno, servicio := data.clienteCedula.value, data.turnoId, data.servicioId;
      if cliente !in t.clientes then Outcome(Failed(CUSTOMER_NOT_FOUND), t)
      else if turno !in t.turnos then Outcome(Failed(TURNO_NOT_FOUND), t)
      else if servicio !in t.servicios then Outcome(Failed(SERVICE_NOT_FOUND), t)
      else if VerificarExistenciaCita(t, cliente, turno) then Outcome(Failed(CITA_ALREADY_EXISTS), t)
      else if t.turnos[turno].estado then Outcome(Failed(TURNO_ASIGNADO), t)
      else Outcome(Succeeded(), t.InsertCita(Cita(cliente, turno, fecha, servicio)).SetEstado(turno, true))
  }

  /** `deleteCita`. */
  function Delete(t: Tables, id: int): (o: Outcome)
    ensures id !in t.citas ==> o == Outcome(Failed(CITA_NOT_FOUND), t)
    ensures id in t.citas ==>
      && o.reply == Succeeded()
      && SameSchedule(t, o.tables)
      && o.tables.nextId == t.nextId
      && o.tables.citas == t.citas - {id}
      && (t.citas[id].turno in t.turnos ==> !o.tables.turnos[t.citas[id].turno].estado)
      && (forall k :: k in t.turnos && k != t.citas[id].turno ==> o.tables.turnos[k] == t.turnos[k])
  {
    if id !in t.citas then Outcome(Failed(CITA_NOT_FOUND), t)
    else Outcome(Succeeded(), t.SetEstado(t.citas[id].turno, false).(citas := t.citas - {id}))
  }

  /** The request asks `partialUpdateCita` to move appointment `id` to another slot. */
  predicate MovesTurno(t: Tables, id: int, data: CitaData)
    requires id in t.citas
  {
    data.turnoId != 0 && data.turnoId != t.citas[id].turno
  }

  /** The appointment as `partialUpdateCita` leaves it: every field the request
      carries (a non-null client, a non-zero slot or service) replaced. */
  function Patched(c: Cita, data: CitaData): Cita {
    Cita(
      if data.clienteCedula.Some? then data.clienteCedula.value else c.cliente,
      if data.turnoId != 0 then data.turnoId else c.turno,
      c.fecha,
      if data.servicioId != 0 then data.servicioId else c.servicio)
  }

  /** The service step of `partialUpdateCita` and the final save. */
  function SaveWithServicio(t: Tables, id: int, c: Cita, servicioId: int): (o: Outcome)
    requires id in t.citas
  {
    if servicioId != 0 && servicioId !in t.servicios then Outcome(Failed(SERVICE_NOT_FOUND), t)
    else Outcome(Succeeded(), t.(citas := t.citas[id := if servicioId != 0 then c.(servicio := servicioId) else c]))
  }

  /** `partialUpdateCita`, as written: the slots' flags are swapped before the
      service is looked up, so a missing service leaves them swapped. */
  function PartialUpdate(t: Tables, id: int, data: CitaData): (o: Outcome)
    ensures id !in t.citas ==> o == Outcome(Failed(CITA_NOT_FOUND), t)
    ensures SameSchedule(t, o.tables) && o.tables.nextId == t.nextId && o.tables.citas.Keys == t.citas.Keys
    ensures o.reply != Succeeded() ==> o.tables.citas == t.citas
    ensures o.reply != Succeeded() && o.reply != Failed(SERVICE_NOT_FOUND) ==> o.tables == t
    ensures id in t.citas && data.clienteCedula.Some? && data.clienteCedula.value !in t.clientes ==>
      o.reply == Failed(CUSTOMER_NOT_FOUND)
    ensures id in t.citas && !(data.clienteCedula.Some? && data.clienteCedula.value !in t.clientes) ==>
      && (MovesTurno(t, id, data) && data.turnoId !in t.turnos ==> o.reply == Failed(TURNO_NOT_FOUND))
      && (MovesTurno(t, id, data) && data.turnoId in t.turnos && t.turnos[data.turnoId].estado ==>
            o.reply == Failed(TURNO_ASIGNADO))
      && ((!MovesTurno(t, id, data) || (data.turnoId in t.turnos && !t.turnos[data.turnoId].estado)) ==>
            o.reply == (if data.servicioId != 0 && data.servicioId !in t.servicios
                        then Failed(SERVICE_NOT_FOUND) else Succeeded()))
    ensures o.reply == Succeeded() ==> o.tables.citas == t.citas[id := Patched(t.citas[id], data)]
    ensures id in t.citas && !MovesTurno(t, id, data) ==> o.tables.turnos == t.turnos
    ensures id in t.citas && MovesTurno(t, id, data) && o.reply in {Succeeded(), Failed(SERVICE_NOT_FOUND)} ==>
      && o.tables.turnos[data.turnoId].estado
      && (t.citas[id].turno in t.turnos ==> !o.tables.turnos[t.citas[id].turno].estado)
      && (forall k :: k in t.turnos && k != data.turnoId && k != t.citas[id].turno ==> o.tables.turnos[k] == t.turnos[k])
  {
    if id !in t.citas then Outcome(Failed(CITA_NOT_FOUND), t)
    else if data.clienteCedula.Some? && data.clienteCedula.value !in t.clientes then
      Outcome(Failed(CUSTOMER_NOT_FOUND), t)
    else
      var cita := t.citas[id];
      var cita := if data.clienteCedula.Some? then cita.(cliente := data.clienteCedula.value) else cita;
      if MovesTurno(t, id, data) then
        if data.turnoId !in t.turnos then Outcome(Failed(TURNO_NOT_FOUND), t)
        else
          var (asignado, t') := CambiarEstadoTurno(t, cita.turno, data.turnoId);
          if asignado then Outcome(Failed(TURNO_ASIGNADO), t)
          else SaveWithServicio(t', id, cita.(turno := data.turnoId), data.servicioId)
      else SaveWithServicio(t, id, cita, data.servicioId)
  }

  /** `partialUpdateCita` with every lookup done before any flag is written:
      the swap happens only when the whole update is going to be saved. */
  function PartialUpdateCorrected(t: Tables, id: int, data: CitaData): (o: Outcome)
    ensures o.reply != Succeeded() ==> o.tables == t
    ensures id in t.citas && o.reply == Succeeded() ==> o.tables.citas == t.citas[id := Patched(t.citas[id], data)]
    ensures SameSchedule(t, o.tables) && o.tables.nextId == t.nextId
    ensures id in t.citas && !MovesTurno(t, id, data) ==> o.tables.turnos == t.turnos
    ensures id in t.citas && MovesTurno(t, id, data) && o.reply == Succeeded() ==>
      && data.turnoId in o.tables.turnos
      && o.tables.turnos[data.turnoId].estado
      && (t.citas[id].turno in t.turnos ==> !o.tables.turnos[t.citas[id].turno].estado)
      && (forall k :: k in t.turnos && k != data.turnoId && k != t.citas[id].turno ==> o.tables.turnos[k] == t.turnos[k])
  {
    if id !in t.citas then Outcome(Failed(CITA_NOT_FOUND), t)
    else if data.clienteCedula.Some? && data.clienteCedula.value !in t.clientes then
      Outcome(Failed(CUSTOMER_NOT_FOUND), t)
    else if MovesTurno(t, id, data) && data.turnoId !in t.turnos then Outcome(Failed(TURNO_NOT_FOUND), t)
    else if MovesTurno(t, id, data) && t.turnos[data.turnoId].estado then Outcome(Failed(TURNO_ASIGNADO), t)
    else if data.servicioId != 0 && data.servicioId !in t.servicios then Outcome(Failed(SERVICE_NOT_FOUND), t)
    else
      var t' := if MovesTurno(t, id, data) then CambiarEstadoTurno(t, t.citas[id].turno, data.turnoId).1 else t;
      Outcome(Succeeded(), t'.(citas := t'.citas[id := Patched(t.citas[id], data)]))
  }

  /** `updateCita`, as written: `turnoActual` is read after the appointment
      already points at the new slot, so the swap takes and frees that same
      slot and no flag ever changes. */
  function Update(t: Tables, id: int, data: CitaData): (o: Outcome)
    ensures o.tables.turnos == t.turnos
    ensures SameSchedule(t, o.tables) && o.tables.nextId == t.nextId
    ensures o.reply != Succeeded() ==> o.tables == t
    ensures !ValidarDatos(data) ==> o.reply == Failed(FALTAN_DATOS)
    ensures ValidarDatos(data) && id !in t.citas ==> o.reply == Failed(CITA_NOT_FOUND)
    ensures ValidarDatos(data) && id in t.citas && data.clienteCedula.value !in t.clientes ==>
      o.reply == Failed(CUSTOMER_NOT_FOUND)
    ensures ValidarDatos(data) && id in t.citas && data.clienteCedula.value in t.clientes
            && data.servicioId !in t.servicios ==>
      o.reply == Failed(SERVICE_NOT_FOUND)
    ensures ValidarDatos(data) && id in t.citas && data.clienteCedula.value in t.clientes
            && data.servicioId in t.servicios && data.turnoId !in t.turnos ==>
      o.reply == Failed(TURNO_NOT_FOUND)
    ensures ValidarDatos(data) && id in t.citas && data.clienteCedula.value in t.clientes
            && data.servicioId in t.servicios && data.turnoId in t.turnos ==>
      o.reply == (if t.turnos[data.turnoId].estado || BuscarCitaPorTurno(t, data.turnoId)
                  then Failed(TURNO_ASIGNADO) else Succeeded())
    ensures o.reply == Succeeded() ==>
      o.tables.citas == t.citas[id := Cita(data.clienteCedula.value, data.turnoId, t.citas[id].fecha, data.servicioId)]
  {
    if !ValidarDatos(data) then Outcome(Failed(FALTAN_DATOS), t)
    else if id !in t.citas then Outcome(Failed(CITA_NOT_FOUND), t)
    else
      var cliente, turno, servicio := data.clienteCedula.value, data.turnoId, data.servicioId;
      if cliente !in t.clientes then Outcome(Failed(CUSTOMER_NOT_FOUND), t)
      else if servicio !in t.servicios then Outcome(Failed(SERVICE_NOT_FOUND), t)
      else if turno !in t.turnos then Outcome(Failed(TURNO_NOT_FOUND), t)
      else
        var turnoActual := turno;
        var (asignado, t') := CambiarEstadoTurno(t, turnoActual, turno);
        if asignado then Outcome(Failed(TURNO_ASIGNADO), t)
        else if BuscarCitaPorTurno(t', turno) then Outcome(Failed(TURNO_ASIGNADO), t')
        else Outcome(Succeeded(), t'.(citas := t'.citas[id := Cita(cliente, turno, t.citas[id].fecha, servicio)]))
  }

  /** `updateCita` with `turnoActual` read before the appointment is pointed at
      the new slot, so the swap frees the slot the appointment leaves, and with
      the booked-slot lookup made before any flag is written. */
  function UpdateCorrected(t: Tables, id: int, data: CitaData): (o: Outcome)
    ensures SameSchedule(t, o.tables) && o.tables.nextId == t.nextId
    ensures o.reply != Succeeded() ==> o.tables == t
    ensures ValidarDatos(data) && id in t.citas && o.reply == Succeeded() ==>
      o.tables.citas == t.citas[id := Cita(data.clienteCedula.value, data.turnoId, t.citas[id].fecha, data.servicioId)]
    ensures ValidarDatos(data) && id in t.citas && data.turnoId in t.turnos && o.reply == Succeeded() ==>
      && o.tables.turnos[data.turnoId].estado
      && (t.citas[id].turno in t.turnos ==> !o.tables.turnos[t.citas[id].turno].estado)
      && (forall k :: k in t.turnos && k != data.turnoId && k != t.citas[id].turno ==> o.tables.turnos[k] == t.turnos[k])
  {
    if !ValidarDatos(data) then Outcome(Failed(FALTAN_DATOS), t)
    else if id !in t.citas then Outcome(Failed(CITA_NOT_FOUND), t)
    else
      var cliente, turno, servicio := data.clienteCedula.value, data.turnoId, data.servicioId;
      if cliente !in t.clientes then Outcome(Failed(CUSTOMER_NOT_FOUND), t)
      else if servicio !in t.servicios then Outcome(Failed(SERVICE_NOT_FOUND), t)
      else if turno !in t.turnos then Outcome(Failed(TURNO_NOT_FOUND), t)
      else if t.turnos[turno].estado || BuscarCitaPorTurno(t, turno) then Outcome(Failed(TURNO_ASIGNADO), t)
      else
        var turnoActual := t.citas[id].turno;
        var t' := CambiarEstadoTurno(t, turnoActual, turno).1;
        Outcome(Succeeded(), t'.(citas := t'.citas[id := Cita(cliente, turno, t.citas[id].fecha, servicio)]))
  }

  /** The corrected partial update answers every request exactly as the
      original does: same checks, same order, same replies. */
  lemma PartialUpdateCorrectedSameReplies(t: Tables, id: int, data: CitaData)
    ensures PartialUpdateCorrected(t, id, data).reply == PartialUpdate(t, id, data).reply
  {
  }

  /** The corrected full update answers every request exactly as the original
      does: same checks, same order, same replies. */
  lemma UpdateCorrectedSameReplies(t: Tables, id: int, data: CitaData)
    ensures UpdateCorrected(t, id, data).reply == Update(t, id, data).reply
  {
  }
}
