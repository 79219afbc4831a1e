/** The booking invariant: a slot is marked taken exactly when an appointment
    points at it, and no two appointments point at the same slot.  Creating,
    deleting and (except for one path) partially updating an appointment keep
    it; the full update as written breaks it, and so does the partial update
    whose service lookup fails after the slots were swapped. */
module CitaInvariants {
  import opened Wrappers
  import opened Defines
  import opened Store
  import opened CitaModel

  /** The taken flag of every slot says whether an appointment points at it. */
  ghost predicate FlagsMatchBookings(t: Tables) {
    forall k :: k in t.turnos ==> (t.turnos[k].estado <==> BuscarCitaPorTurno(t, k))
  }

  /** At most one appointment per slot. */
  ghost predicate OneCitaPerTurno(t: Tables) {
    forall a, b :: a in t.citas && b in t.citas && t.citas[a].turno == t.citas[b].turno ==> a == b
  }

  ghost predicate Consistent(t: Tables) {
    t.Valid() && FlagsMatchBookings(t) && OneCitaPerTurno(t)
  }

  /** Moving appointment `id` from its slot to the free slot `n`, marking `n`
      taken and the slot it leaves free, keeps the invariant. */
  lemma MoveKeepsConsistent(t: Tables, t': Tables, id: int, n: int)
    requires Consistent(t) && id in t.citas && n in t.turnos && !t.turnos[n].estado
    requires t'.Valid() && t'.turnos.Keys == t.turnos.Keys && t'.citas.Keys == t.citas.Keys
    requires id in t'.citas && t'.citas[id].turno == n
    requires forall c :: c in t.citas && c != id ==> t'.citas[c] == t.citas[c]
    requires t'.turnos[n].estado
    requires t.citas[id].turno in t.turnos ==> !t'.turnos[t.citas[id].turno].estado
    requires forall k :: k in t.turnos && k != n && k != t.citas[id].turno ==> t'.turnos[k] == t.turnos[k]
    ensures Consistent(t')
  {
    var o := t.citas[id].turno;
    assert !BuscarCitaPorTurno(t, n);
    forall k | k in t'.turnos
      ensures t'.turnos[k].estado <==> BuscarCitaPorTurno(t', k)
    {
      if k == n {
        assert t'.citas[id].turno == n;
      } else if k != o {
        if BuscarCitaPorTurno(t, k) {
          var c :| c in t.citas && t.citas[c].turno == k;
          assert c != id && t'.citas[c].turno == k;
        }
        if BuscarCitaPorTurno(t', k) {
          var c :| c in t'.citas && t'.citas[c].turno == k;
          assert c != id && t.citas[c].turno == k;
        }
      }
    }
  }

  /** A successful booking keeps the invariant. */
  lemma CreateKeepsConsistent(t: Tables, data: CitaData, fecha: int)
    requires Consistent(t)
    ensures Consistent(Create(t, data, fecha).tables)
  {
    var o := Create(t, data, fecha);
    if o.reply == Succeeded() {
      var t', s, n := o.tables, data.turnoId, t.nextId;
      assert !BuscarCitaPorTurno(t, s);
      forall k | k in t'.turnos
        ensures t'.turnos[k].estado <==> BuscarCitaPorTurno(t', k)
      {
        if k == s {
          assert t'.citas[n].turno == s;
        } else {
          if BuscarCitaPorTurno(t, k) {
            var c :| c in t.citas && t.citas[c].turno == k;
            assert t'.citas[c].turno == k;
          }
          if BuscarCitaPorTurno(t', k) {
            var c :| c in t'.citas && t'.citas[c].turno == k;
            assert c != n && t.citas[c].turno == k;
          }
        }
      }
    }
  }

  /** Deleting an appointment keeps the invariant. */
  lemma DeleteKeepsConsistent(t: Tables, id: int)
    requires Consistent(t)
    ensures Consistent(Delete(t, id).tables)
  {
    if id in t.citas {
      var t', s := Delete(t, id).tables, t.citas[id].turno;
      forall k | k in t'.turnos
        ensures t'.turnos[k].estado <==> BuscarCitaPorTurno(t', k)
      {
        if k != s {
          if BuscarCitaPorTurno(t, k) {
            var c :| c in t.citas && t.citas[c].turno == k;
            assert c != id && t'.citas[c].turno == k;
          }
          if BuscarCitaPorTurno(t', k) {
            var c :| c in t'.citas && t'.citas[c].turno == k;
            assert t.citas[c].turno == k;
          }
        }
      }
    }
  }

  /** A partial update keeps the invariant on every path but one: a missing
      service after the slots were swapped. */
  lemma PartialUpdateKeepsConsistent(t: Tables, id: int, data: CitaData)
    requires Consistent(t)
    ensures PartialUpdate(t, id, data).reply != Failed(SERVICE_NOT_FOUND) ==> Consistent(PartialUpdate(t, id, data).tables)
  {
    var o := PartialUpdate(t, id, data);
    if o.reply == Succeeded() {
      var t' := o.tables;
      if MovesTurno(t, id, data) {
        MoveKeepsConsistent(t, t', id, data.turnoId);
      } else {
        assert t'.turnos == t.turnos;
        assert forall c :: c in t.citas ==> t'.citas[c].turno == t.citas[c].turno;
        forall k | k in t'.turnos
          ensures t'.turnos[k].estado <==> BuscarCitaPorTurno(t', k)
        {
          if BuscarCitaPorTurno(t, k) {
            var c :| c in t.citas && t.citas[c].turno == k;
            assert t'.citas[c].turno == k;
          }
          if BuscarCitaPorTurno(t', k) {
            var c :| c in t'.citas && t'.citas[c].turno == k;
            assert t.citas[c].turno == k;
          }
        }
      }
    }
  }

  /** The flaw of the partial update: when the request moves the appointment to
      a free slot and names a service that does not exist, the response is
      SERVICE_NOT_FOUND and nothing is saved, yet the new slot is already marked
      taken with no appointment pointing at it. */
  lemma PartialUpdateServiceFailureBreaksFlags(t: Tables, id: int, data: CitaData)
    requires Consistent(t) && id in t.citas && MovesTurno(t, id, data)
    requires data.turnoId in t.turnos && !t.turnos[data.turnoId].estado
    requires data.servicioId != 0 && data.servicioId !in t.servicios
    requires data.clienteCedula.Some? ==> data.clienteCedula.value in t.clientes
    ensures PartialUpdate(t, id, data).reply == Failed(SERVICE_NOT_FOUND)
    ensures !FlagsMatchBookings(PartialUpdate(t, id, data).tables)
  {
    var t' := PartialUpdate(t, id, data).tables;
    assert t'.turnos[data.turnoId].estado;
    assert !BuscarCitaPorTurno(t, data.turnoId);
  }

  /** With every lookup done before the swap, the partial update keeps the
      invariant on every path. */
  lemma PartialUpdateCorrectedKeepsConsistent(t: Tables, id: int, data: CitaData)
    requires Consistent(t)
    ensures Consistent(PartialUpdateCorrected(t, id, data).tables)
  {
    var o := PartialUpdateCorrected(t, id, data);
    if o.reply == Succeeded() {
      var t' := o.tables;
      if MovesTurno(t, id, data) {
        MoveKeepsConsistent(t, t', id, data.turnoId);
      } else {
        assert t'.turnos == t.turnos;
        assert forall c :: c in t.citas ==> t'.citas[c].turno == t.citas[c].turno;
        forall k | k in t'.turnos
          ensures t'.turnos[k].estado <==> BuscarCitaPorTurno(t', k)
        {
          if BuscarCitaPorTurno(t, k) {
            var c :| c in t.citas && t.citas[c].turno == k;
            assert t'.citas[c].turno == k;
          }
          if BuscarCitaPorTurno(t', k) {
            var c :| c in t'.citas && t'.citas[c].turno == k;
            assert t.citas[c].turno == k;
          }
        }
      }
    }
  }

  /** The flaw of the full update: a successful move to another slot leaves the
      new slot marked free although the appointment now points at it. */
  lemma UpdateMoveBreaksFlags(t: Tables, id: int, data: CitaData)
    requires Consistent(t) && id in t.citas && data.turnoId != t.citas[id].turno
    requires Update(t, id, data).reply == Succeeded()
    ensures !FlagsMatchBookings(Update(t, id, data).tables)
  {
    var t' := Update(t, id, data).tables;
    assert t'.citas[id].turno == data.turnoId;
    assert !t'.turnos[data.turnoId].estado;
  }

  /** With `turnoActual` read before the slot is replaced, the full update keeps
      the invariant on every path. */
  lemma UpdateCorrectedKeepsConsistent(t: Tables, id: int, data: CitaData)
    requires Consistent(t)
    ensures Consistent(UpdateCorrected(t, id, data).tables)
  {
    var o := UpdateCorrected(t, id, data);
    if ValidarDatos(data) && id in t.citas && data.clienteCedula.value in t.clientes
       && data.servicioId in t.servicios && data.turnoId in t.turnos {
      var s := data.turnoId;
      if !t.turnos[s].estado {
        assert !BuscarCitaPorTurno(t, s);
        assert t.citas[id].turno != s;
        MoveKeepsConsistent(t, o.tables, id, s);
      }
    }
  }

  /** Once a slot is booked, a second booking of it is rejected and changes
      nothing: CITA_ALREADY_EXISTS for the same client, TURNO_ASIGNADO for
      another one. */
  lemma SecondBookingRejected(t: Tables, first: CitaData, second: CitaData, f1: int, f2: int)
    requires Consistent(t) && Create(t, first, f1).reply == Succeeded()
    requires ValidarDatos(second) && second.turnoId == first.turnoId
    requires second.clienteCedula.value in t.clientes && second.servicioId in t.servicios
    ensures var t1 := Create(t, first, f1).tables;
      && Create(t1, second, f2).reply ==
           (if second.clienteCedula == first.clienteCedula then Failed(CITA_ALREADY_EXISTS) else Failed(TURNO_ASIGNADO))
      && Create(t1, second, f2).tables == t1
  {
    var t1 := Create(t, first, f1).tables;
    assert !BuscarCitaPorTurno(t, first.turnoId);
    assert t1.citas[t.nextId].turno == first.turnoId;
    if second.clienteCedula == first.clienteCedula {
      assert VerificarExistenciaCita(t1, second.clienteCedula.value, second.turnoId);
    }
  }

  /** Deleting the appointment a booking just created undoes the booking; only
      the id generator has moved on. */
  lemma DeleteUndoesCreate(t: Tables, data: CitaData, fecha: int)
    requires t.Valid() && Create(t, data, fecha).reply == Succeeded()
    ensures Delete(Create(t, data, fecha).tables, t.nextId) == Outcome(Succeeded(), t.(nextId := t.nextId + 1))
  {
    var t1 := Create(t, data, fecha).tables;
    var t2 := Delete(t1, t.nextId).tables;
    assert t2.citas == t.citas;
    assert t2.turnos == t.turnos;
  }
}
