/** The shared persistence layer both controllers work against: one object whose
    fields are the repositories' tables.  Its methods are the repository calls
    the controllers make (`save` of a new or a loaded row, `delete` by id);
    `findOne` and the custom queries read the tables through `Contents()`. */
module Persistence {
  import opened Store

  class Database {
    var clientes: set<string>
    var servicios: set<int>
    var agendas: map<int, Agenda>
    var dias: map<int, DiaAgenda>
    var turnos: map<int, Turno>
    var citas: map<int, Cita>
    var nextId: nat

    /** The current contents of every table. */
    function Contents(): Tables
      reads this
    {
      Tables(clientes, servicios, agendas, dias, turnos, citas, nextId)
    }

    ghost predicate Valid()
      reads this
    {
      Contents().Valid()
    }

    /** An empty schedule over the given clients and services. */
    constructor (clientes: set<string>, servicios: set<int>)
      ensures Valid()
      ensures Contents() == Store.Tables(clientes, servicios, map[], map[], map[], map[], 1)
    {
      this.clientes := clientes;
      this.servicios := servicios;
      agendas, dias, turnos, citas := map[], map[], map[], map[];
      nextId := 1;
    }

    /** `agendaRepository.save(new Agenda(...))`. */
    method SaveNewAgenda(a: Agenda) returns (id: int)
      requires Valid()
      modifies this
      ensures Valid()
      ensures id == old(nextId) && id !in old(agendas)
      ensures Contents() == old(Contents()).InsertAgenda(a)
    {
      id := nextId;
      agendas := agendas[id := a];
      nextId := nextId + 1;
    }

    /** `diaAgendaRepository.save(new DiaAgenda(...))`. */
    method SaveNewDia(d: DiaAgenda) returns (id: int)
      requires Valid()
      modifies this
      ensures Valid()
      ensures id == old(nextId) && id !in old(dias)
      ensures Contents() == old(Contents()).InsertDia(d)
    {
      id := nextId;
      dias := dias[id := d];
      nextId := nextId + 1;
    }

    /** `turnoRepository.save(new Turno(...))`. */
    method SaveNewTurno(s: Turno) returns (id: int)
      requires Valid()
      modifies this
      ensures Valid()
      ensures id == old(nextId) && id !in old(turnos)
      ensures Contents() == old(Contents()).InsertTurno(s)
    {
      id := nextId;
      turnos := turnos[id := s];
      nextId := nextId + 1;
    }

    /** `citaRepository.save(new Cita(...))`. */
    method SaveNewCita(c: Cita) returns (id: int)
      requires Valid()
      modifies this
      ensures Valid()
      ensures id == old(nextId) && id !in old(citas)
      ensures Contents() == old(Contents()).InsertCita(c)
    {
      id := nextId;
      citas := citas[id := c];
      nextId := nextId + 1;
    }

    /** `turnoRepository.save(turno)` of a slot loaded earlier. */
    method SaveTurno(id: int, s: Turno)
      requires Valid() && id in turnos
      modifies this
      ensures Valid()
      ensures Contents() == old(Contents()).(turnos := old(turnos)[id := s])
    {
      turnos := turnos[id := s];
    }

    /** `citaRepository.save(cita)` of an appointment loaded earlier. */
    method SaveCita(id: int, c: Cita)
      requires Valid() && id in citas
      modifies this
      ensures Valid()
      ensures Contents() == old(Contents()).(citas := old(citas)[id := c])
    {
      citas := citas[id := c];
    }

    /** `agendaRepository.delete(id)`. */
    method DeleteAgenda(id: int)
      requires Valid()
      modifies this
      ensures Valid()
      ensures Contents() == old(Contents()).(agendas := old(agendas) - {id})
    {
      agendas := agendas - {id};
    }

    /** `diaAgendaRepository.delete(id)`. */
    method DeleteDia(id: int)
      requires Valid()
      modifies this
      ensures Valid()
      ensures Contents() == old(Contents()).(dias := old(dias) - {id})
    {
      dias := dias - {id};
    }

    /** `turnoRepository.delete(id)`. */
    method DeleteTurno(id: int)
      requires Valid()
      modifies this
      ensures Valid()
      ensures Contents() == old(Contents()).(turnos := old(turnos) - {id})
    {
      turnos := turnos - {id};
    }

    /** `citaRepository.delete(id)`. */
    method DeleteCita(id: int)
      requires Valid()
      modifies this
      ensures Valid()
      ensures Contents() == old(Contents()).(citas := old(citas) - {id})
    {
      citas := citas - {id};
    }
  }
}
