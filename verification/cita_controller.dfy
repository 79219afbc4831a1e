/** The appointment endpoints under /cita.  The read endpoints are queries over
    the tables; the others update the database one repository call at a time,
    in the order the controller makes them, and each is proved to leave the
    database as the matching CitaModel function says. */
module CitaController {
  import opened Wrappers
  import opened Defines
  import opened Store
  import opened Persistence
  import opened CitaModel

  /** The rows of `m` under the keys `ids`, in that order. */
  function Rows(m: map<int, Cita>, ids: seq<int>): (rows: seq<(int, Cita)>)
    requires forall i :: 0 <= i < |ids| ==> ids[i] in m
    ensures |rows| == |ids|
    ensures forall i :: 0 <= i < |ids| ==> rows[i] == (ids[i], m[ids[i]])
  {
    seq(|ids|, i requires 0 <= i < |ids| => (ids[i], m[ids[i]]))
  }

  /** A row is listed exactly when its key is. */
  lemma RowsHold(m: map<int, Cita>, ids: seq<int>, k: int, c: Cita)
    requires forall i :: 0 <= i < |ids| ==> ids[i] in m
    ensures (k, c) in Rows(m, ids) <==> k in ids && m[k] == c
  {
    var rows := Rows(m, ids);
    if k in ids {
      var i :| 0 <= i < |ids| && ids[i] == k;
      assert rows[i] == (k, m[k]);
    }
  }

  /** GET /cita (`listarCitas`): every appointment in id order, or the NO_CITAS
      failure when there is none. */
  function ListarCitas(t: Tables): (r: Result<seq<(int, Cita)>, GenericResponse>)
    requires t.Valid()
    ensures r.Failure? <==> t.citas == map[]
    ensures r.Failure? ==> r.error == Failed(NO_CITAS)
    ensures r.Success? ==> forall k, c :: (k, c) in r.value <==> k in t.citas && t.citas[k] == c
    ensures r.Success? ==> forall i, j :: 0 <= i < j < |r.value| ==> r.value[i].0 < r.value[j].0
  {
    var ids := FindAllCitas(t);
    if |ids| != 0 then
      assert ids[0] in t.citas;
      assert forall k, c :: (k, c) in Rows(t.citas, ids) <==> k in t.citas && t.citas[k] == c by {
        forall k, c ensures (k, c) in Rows(t.citas, ids) <==> k in t.citas && t.citas[k] == c {
          RowsHold(t.citas, ids, k, c);
        }
      }
      Success(Rows(t.citas, ids))
    else
      assert forall k :: k in t.citas ==> k in ids;
      Failure(Failed(NO_CITAS))
  }

  /** GET /cita/{id} (`getCita`); its not-found response is the two-argument
      form, without the FAILED status. */
  function GetCita(t: Tables, id: int): (r: Result<Cita, GenericResponse>)
    ensures r.Success? <==> id in t.citas
    ensures r.Success? ==> r.value == t.citas[id]
    ensures r.Failure? ==> r.error == Short(CITA_NOT_FOUND, CITA_NOT_FOUND)
  {
    if id in t.citas then Success(t.citas[id]) else Failure(Short(CITA_NOT_FOUND, CITA_NOT_FOUND))
  }

  /** GET /cita/cliente/{cedula} (`getCitaCliente`): the client's appointments
      in id order, or a failure with the NO_CITAS message and the NO_AREAS code. */
  function GetCitaCliente(t: Tables, cedula: string): (r: Result<seq<(int, Cita)>, GenericResponse>)
    requires t.Valid()
    ensures r.Failure? <==> forall k :: k in t.citas ==> t.citas[k].cliente != cedula
    ensures r.Failure? ==> r.error == Full(FAILED, NO_CITAS, NO_AREAS)
    ensures r.Success? ==> forall k, c :: (k, c) in r.value <==> k in t.citas && t.citas[k] == c && c.cliente == cedula
    ensures r.Success? ==> forall i, j :: 0 <= i < j < |r.value| ==> r.value[i].0 < r.value[j].0
  {
    var ids := FindByCliente(t, cedula);
    if |ids| != 0 then
      assert ids[0] in t.citas && t.citas[ids[0]].cliente == cedula;
      assert forall k, c :: (k, c) in Rows(t.citas, ids) <==> k in t.citas && t.citas[k] == c && c.cliente == cedula by {
        forall k, c ensures (k, c) in Rows(t.citas, ids) <==> k in t.citas && t.citas[k] == c && c.cliente == cedula {
          RowsHold(t.citas, ids, k, c);
        }
      }
      Success(Rows(t.citas, ids))
    else
      assert forall k :: k in t.citas && t.citas[k].cliente == cedula ==> k in ids;
      Failure(Full(FAILED, NO_CITAS, NO_AREAS))
  }

  /** `cambiarEstadoTurno(turnoActual, cita)`, where `nuevo` is the slot the
      appointment now points at. */
  method CambiarEstadoTurno(db: Database, turnoActual: int, nuevo: int) returns (asignado: bool)
    requires db.Valid() && nuevo in db.turnos
    modifies db
    ensures db.Valid()
    ensures (asignado, db.Contents()) == CitaModel.CambiarEstadoTurno(old(db.Contents()), turnoActual, nuevo)
  {
    if db.turnos[nuevo].estado {
      return true;
    }
    var turno := db.turnos[nuevo];
    turno := turno.(estado := true);
    db.SaveTurno(nuevo, turno);
    if turnoActual in db.turnos {
      turno := db.turnos[turnoActual];
      turno := turno.(estado := false);
      db.SaveTurno(turnoActual, turno);
    }
    return false;
  }

  /** POST /cita (`createCita`); `fecha` is the current time. */
  method CreateCita(db: Database, data: CitaData, fecha: int) returns (respuesta: GenericResponse)
    requires db.Valid()
    modifies db
    ensures db.Valid()
    ensures Outcome(respuesta, db.Contents()) == Create(old(db.Contents()), data, fecha)
  {
    if ValidarDatos(data) {
      var cliente := if data.clienteCedula.value in db.clientes then Some(data.clienteCedula.value) else None;
      var turno := if data.turnoId in db.turnos then Some(db.turnos[data.turnoId]) else None;
      var servicio := if data.servicioId in db.servicios then Some(data.servicioId) else None;
      if cliente.None? {
        respuesta := Failed(CUSTOMER_NOT_FOUND);
      } else if turno.None? {
        respuesta := Failed(TURNO_NOT_FOUND);
      } else if servicio.None? {
        respuesta := Failed(SERVICE_NOT_FOUND);
      } else {
        if !VerificarExistenciaCita(db.Contents(), data.clienteCedula.value, data.turnoId) {
          if !turno.value.estado {
            var _ := db.SaveNewCita(Cita(cliente.value, data.turnoId, fecha, servicio.value));
            var t := turno.value.(estado := true);
            db.SaveTurno(data.turnoId, t);
            respuesta := Succeeded();
          } else {
            respuesta := Failed(TURNO_ASIGNADO);
          }
        } else {
          respuesta := Failed(CITA_ALREADY_EXISTS);
        }
      }
    } else {
      respuesta := Failed(FALTAN_DATOS);
    }
  }

  /** DELETE /cita/{id} (`deleteCita`). */
  method DeleteCita(db: Database, id: int) returns (respuesta: GenericResponse)
    requires db.Valid()
    modifies db
    ensures db.Valid()
    ensures Outcome(respuesta, db.Contents()) == Delete(old(db.Contents()), id)
  {
    if id in db.citas {
      var cita := db.citas[id];
      if cita.turno in db.turnos {
        var turno := db.turnos[cita.turno];
        turno := turno.(estado := false);
        db.SaveTurno(cita.turno, turno);
      }
      db.DeleteCita(id);
      return Succeeded();
    } else {
      return Failed(CITA_NOT_FOUND);
    }
  }

  /** PATCH /cita/{id} (`partialUpdateCita`). */
  method PartialUpdateCita(db: Database, id: int, data: CitaData) returns (respuesta: GenericResponse)
    requires db.Valid()
    modifies db
    ensures db.Valid()
    ensures Outcome(respuesta, db.Contents()) == PartialUpdate(old(db.Contents()), id, data)
  {
    if id !in db.citas {
      return Failed(CITA_NOT_FOUND);
    }
    var cita := db.citas[id];
    if data.clienteCedula.Some? {
      if data.clienteCedula.value !in db.clientes {
        return Failed(CUSTOMER_NOT_FOUND);
      }
      cita := cita.(cliente := data.clienteCedula.value);
    }
    if data.turnoId != 0 && data.turnoId != cita.turno {
      var turnoActual := cita.turno;
      if data.turnoId in db.turnos {
        cita := cita.(turno := data.turnoId);
        var asignado := CambiarEstadoTurno(db, turnoActual, data.turnoId);
        if asignado {
          return Failed(TURNO_ASIGNADO);
        }
      } else {
        return Failed(TURNO_NOT_FOUND);
      }
    }
    if data.servicioId != 0 {
      cita := cita.(servicio := data.servicioId);
      if data.servicioId !in db.servicios {
        return Failed(SERVICE_NOT_FOUND);
      }
    }
    db.SaveCita(id, cita);
    return Succeeded();
  }

  /** PUT /cita/{id} (`updateCita`), reading `turnoActual` where the controller
      reads it: after the appointment already points at the new slot. */
  method UpdateCita(db: Database, id: int, data: CitaData) returns (respuesta: GenericResponse)
    requires db.Valid()
    modifies db
    ensures db.Valid()
    ensures Outcome(respuesta, db.Contents()) == Update(old(db.Contents()), id, data)
  {
    if ValidarDatos(data) {
      if id in db.citas {
        var cita := db.citas[id];
        if data.clienteCedula.value !in db.clientes {
          respuesta := Failed(CUSTOMER_NOT_FOUND);
        } else {
          cita := cita.(cliente := data.clienteCedula.value);
          if data.servicioId !in db.servicios {
            respuesta := Failed(SERVICE_NOT_FOUND);
          } else {
            cita := cita.(servicio := data.servicioId);
            if data.turnoId !in db.turnos {
              respuesta := Failed(TURNO_NOT_FOUND);
            } else {
              cita := cita.(turno := data.turnoId);
              var turnoActual := cita.turno;
              var asignado := CambiarEstadoTurno(db, turnoActual, cita.turno);
              if asignado {
                return Failed(TURNO_ASIGNADO);
              }
              if !BuscarCitaPorTurno(db.Contents(), data.turnoId) {
                db.SaveCita(id, cita);
                respuesta := Succeeded();
              } else {
                respuesta := Failed(TURNO_ASIGNADO);
              }
            }
          }
        }
      } else {
        respuesta := Failed(CITA_NOT_FOUND);
      }
    } else {
      respuesta := Failed(FALTAN_DATOS);
    }
  }
}
