/** The rows the two controllers read and write, the tables that hold them and
    the repository queries over those tables.  Every table maps a generated id
    to a row; ids come from one shared generator, `nextId`, and a query lists
    its rows in ascending id order (the order the repositories return them in,
    in this model). */
module Store {
  import opened Wrappers
  import opened Defines

  /** The response of a request and the tables it leaves behind. */
  datatype Outcome = Outcome(reply: GenericResponse, tables: Tables)

  /** A specialist's agenda for one month (1-12) of one year. */
  datatype Agenda = Agenda(mes: int, anio: int, especialista: string)

  /** A day of the month inside an agenda. */
  datatype DiaAgenda = DiaAgenda(dia: int, agenda: int)

  /** A time slot of a day; `estado` is the "slot taken" flag. */
  datatype Turno = Turno(horaInicio: string, duracion: int, diaAgenda: int, estado: bool)

  /** An appointment: client, slot, creation time and service. */
  datatype Cita = Cita(cliente: string, turno: int, fecha: int, servicio: int)

  /** Every key of `m` is an id already handed out by a generator at `n`. */
  ghost predicate KeysBelow<T>(m: map<int, T>, n: int) {
    forall k :: k in m ==> 0 <= k < n
  }

  /** The database: the ids of the clients and services this component reads,
      and the four tables it writes. */
  datatype Tables = Tables(
    clientes: set<string>,
    servicios: set<int>,
    agendas: map<int, Agenda>,
    dias: map<int, DiaAgenda>,
    turnos: map<int, Turno>,
    citas: map<int, Cita>,
    nextId: nat)
  {
    /** No row carries an id the generator has not handed out yet. */
    ghost predicate Valid() {
      && KeysBelow(agendas, nextId)
      && KeysBelow(dias, nextId)
      && KeysBelow(turnos, nextId)
      && KeysBelow(citas, nextId)
    }

    /** `save` of a new agenda: the row gets the next id. */
    function InsertAgenda(a: Agenda): (t: Tables)
      ensures Valid() ==> t.Valid() && nextId !in agendas
    {
      this.(agendas := agendas[nextId := a], nextId := nextId + 1)
    }

    /** `save` of a new day. */
    function InsertDia(d: DiaAgenda): (t: Tables)
      ensures Valid() ==> t.Valid() && nextId !in dias
    {
      this.(dias := dias[nextId := d], nextId := nextId + 1)
    }

    /** `save` of a new slot. */
    function InsertTurno(s: Turno): (t: Tables)
      ensures Valid() ==> t.Valid() && nextId !in turnos
    {
      this.(turnos := turnos[nextId := s], nextId := nextId + 1)
    }

    /** `save` of a new appointment. */
    function InsertCita(c: Cita): (t: Tables)
      ensures Valid() ==> t.Valid() && nextId !in citas
    {
      this.(citas := citas[nextId := c], nextId := nextId + 1)
    }

    /** Sets the taken flag of slot `id` and saves it; a missing slot is left alone. */
    function SetEstado(id: int, estado: bool): (t: Tables)
      ensures t.turnos.Keys == turnos.Keys
      ensures id in turnos ==> t.turnos[id].estado == estado
      ensures id in turnos ==> t.turnos[id] == turnos[id].(estado := estado)
      ensures forall k :: k in turnos && k != id ==> t.turnos[k] == turnos[k]
      ensures t == this.(turnos := t.turnos)
      ensures Valid() ==> t.Valid()
    {
      if id in turnos then this.(turnos := turnos[id := turnos[id].(estado := estado)]) else this
    }
  }

  /** `t'` differs from `t` at most in its appointments and in the taken flags
      of its slots: what an appointment operation may change. */
  ghost predicate SameSchedule(t: Tables, t': Tables) {
    && t'.clientes == t.clientes
    && t'.servicios == t.servicios
    && t'.agendas == t.agendas
    && t'.dias == t.dias
    && t'.turnos.Keys == t.turnos.Keys
    && (forall k :: k in t.turnos ==> t'.turnos[k].(estado := t.turnos[k].estado) == t.turnos[k])
  }

  /** `t'` is `t` with rows added under new ids only: what publishing a
      schedule may do. */
  ghost predicate Grows(t: Tables, t': Tables) {
    && t.nextId <= t'.nextId
    && t'.clientes == t.clientes
    && t'.servicios == t.servicios
    && t'.citas == t.citas
    && AgreeBelow(t.agendas, t'.agendas, t.nextId)
    && AgreeBelow(t.dias, t'.dias, t.nextId)
    && AgreeBelow(t.turnos, t'.turnos, t.nextId)
  }

  lemma GrowsTrans(t1: Tables, t2: Tables, t3: Tables)
    requires Grows(t1, t2) && Grows(t2, t3)
    ensures Grows(t1, t3)
  {
  }

  /** The keys below `n` of the rows of `m` that satisfy `p`, ascending. */
  function Select<T>(m: map<int, T>, p: T -> bool, n: nat): (ks: seq<int>)
    ensures forall i :: 0 <= i < |ks| ==> 0 <= ks[i] < n && ks[i] in m && p(m[ks[i]])
    ensures forall k :: 0 <= k < n && k in m && p(m[k]) ==> k in ks
    ensures forall i, j :: 0 <= i < j < |ks| ==> ks[i] < ks[j]
    decreases n
  {
    if n == 0 then []
    else Select(m, p, n - 1) + (if n - 1 in m && p(m[n - 1]) then [n - 1] else [])
  }

  /** The first key of a query result, as a single-result query returns it. */
  function First(ks: seq<int>): (r: Option<int>)
    ensures r.None? <==> ks == []
    ensures r.Some? ==> r.value == ks[0]
  {
    if ks == [] then None else Some(ks[0])
  }

  /** Maps `m` and `m'` hold the same rows under the keys below `n`. */
  ghost predicate AgreeBelow<T>(m: map<int, T>, m': map<int, T>, n: int) {
    forall k :: 0 <= k < n ==> (k in m <==> k in m') && (k in m ==> m[k] == m'[k])
  }

  /** A query only sees the rows below its bound. */
  lemma {:induction false} SelectAgree<T>(m: map<int, T>, m': map<int, T>, p: T -> bool, n: nat)
    requires AgreeBelow(m, m', n)
    ensures Select(m, p, n) == Select(m', p, n)
    decreases n
  {
    if n > 0 {
      SelectAgree(m, m', p, n - 1);
    }
  }

  /** A query below a lower bound lists a prefix of the same query below a
      higher one. */
  lemma {:induction false} SelectPrefix<T>(m: map<int, T>, p: T -> bool, n: nat, n': nat)
    requires n <= n'
    ensures Select(m, p, n) <= Select(m, p, n')
    decreases n'
  {
    if n' > n {
      SelectPrefix(m, p, n, n' - 1);
    }
  }

  /** A single-result query that found a row keeps finding the same row while
      the table only gains rows above the old bound. */
  lemma FirstStable<T>(m: map<int, T>, m': map<int, T>, p: T -> bool, n: nat, n': nat)
    requires n <= n' && AgreeBelow(m, m', n) && Select(m, p, n) != []
    ensures First(Select(m', p, n')) == First(Select(m, p, n))
  {
    SelectAgree(m, m', p, n);
    SelectPrefix(m', p, n, n');
  }

  /** Inserting a row under the next id appends that id to every query it matches. */
  lemma SelectInsert<T>(m: map<int, T>, p: T -> bool, n: nat, x: T)
    requires KeysBelow(m, n)
    ensures Select(m[n := x], p, n + 1) == Select(m, p, n) + (if p(x) then [n] else [])
  {
    SelectAgree(m, m[n := x], p, n);
  }

  // Repository queries.

  /** `agendaRepository.findByEspecialista`. */
  function FindByEspecialista(t: Tables, cedula: string): (ks: seq<int>)
    ensures forall i :: 0 <= i < |ks| ==> ks[i] in t.agendas && t.agendas[ks[i]].especialista == cedula
    ensures t.Valid() ==> forall k :: k in t.agendas && t.agendas[k].especialista == cedula ==> k in ks
  {
    Select(t.agendas, (a: Agenda) => a.especialista == cedula, t.nextId)
  }

  /** `diaAgendaRepository.findByAgenda`. */
  function FindByAgenda(t: Tables, agendaId: int): (ks: seq<int>)
    ensures forall i :: 0 <= i < |ks| ==> ks[i] in t.dias && t.dias[ks[i]].agenda == agendaId
    ensures t.Valid() ==> forall k :: k in t.dias && t.dias[k].agenda == agendaId ==> k in ks
  {
    Select(t.dias, (d: DiaAgenda) => d.agenda == agendaId, t.nextId)
  }

  /** `turnoRepository.findByDiaAgenda`. */
  function FindByDiaAgenda(t: Tables, diaId: int): (ks: seq<int>)
    ensures forall i :: 0 <= i < |ks| ==> ks[i] in t.turnos && t.turnos[ks[i]].diaAgenda == diaId
    ensures t.Valid() ==> forall k :: k in t.turnos && t.turnos[k].diaAgenda == diaId ==> k in ks
  {
    Select(t.turnos, (s: Turno) => s.diaAgenda == diaId, t.nextId)
  }

  /** `citaRepository.findAll`. */
  function FindAllCitas(t: Tables): (ks: seq<int>)
    ensures t.Valid() ==> forall k :: k in ks <==> k in t.citas
  {
    Select(t.citas, (c: Cita) => true, t.nextId)
  }

  /** `citaRepository.findByCliente`. */
  function FindByCliente(t: Tables, cedula: string): (ks: seq<int>)
    ensures forall i :: 0 <= i < |ks| ==> ks[i] in t.citas && t.citas[ks[i]].cliente == cedula
    ensures t.Valid() ==> forall k :: k in t.citas && t.citas[k].cliente == cedula ==> k in ks
  {
    Select(t.citas, (c: Cita) => c.cliente == cedula, t.nextId)
  }

  /** The row test of `verificarExistenciaAgenda`. */
  function AgendaIs(mes: int, anio: int, cedula: string): Agenda -> bool {
    (a: Agenda) => a == Agenda(mes, anio, cedula)
  }

  /** The row test of `verificarExistenciaDiaAgenda`. */
  function DiaIs(agendaId: int, dia: int): DiaAgenda -> bool {
    (d: DiaAgenda) => d == DiaAgenda(dia, agendaId)
  }

  /** The row test of `verificarExistenciaTurno`: same start time, same day. */
  function TurnoAt(horaInicio: string, diaId: int): Turno -> bool {
    (s: Turno) => s.horaInicio == horaInicio && s.diaAgenda == diaId
  }

  /** `agendaRepository.verificarExistenciaAgenda`: the agenda of a specialist
      for one month, if there is one. */
  function VerificarExistenciaAgenda(t: Tables, mes: int, anio: int, cedula: string): (r: Option<int>)
    ensures r.Some? ==> r.value in t.agendas && t.agendas[r.value] == Agenda(mes, anio, cedula)
    ensures t.Valid() && r.None? ==> forall k :: k in t.agendas ==> t.agendas[k] != Agenda(mes, anio, cedula)
  {
    First(Select(t.agendas, AgendaIs(mes, anio, cedula), t.nextId))
  }

  /** `diaAgendaRepository.verificarExistenciaDiaAgenda`: the given day of an
      agenda, if there is one. */
  function VerificarExistenciaDiaAgenda(t: Tables, agendaId: int, dia: int): (r: Option<int>)
    ensures r.Some? ==> r.value in t.dias && t.dias[r.value] == DiaAgenda(dia, agendaId)
    ensures t.Valid() && r.None? ==> forall k :: k in t.dias ==> t.dias[k] != DiaAgenda(dia, agendaId)
  {
    First(Select(t.dias, DiaIs(agendaId, dia), t.nextId))
  }

  /** `turnoRepository.verificarExistenciaTurno`: the slot of a day that starts
      at the given time, if there is one. */
  function VerificarExistenciaTurno(t: Tables, horaInicio: string, diaId: int): (r: Option<int>)
    ensures r.Some? ==> r.value in t.turnos && t.turnos[r.value].horaInicio == horaInicio && t.turnos[r.value].diaAgenda == diaId
    ensures t.Valid() && r.None? ==> forall k :: k in t.turnos ==> !(t.turnos[k].horaInicio == horaInicio && t.turnos[k].diaAgenda == diaId)
  {
    First(Select(t.turnos, TurnoAt(horaInicio, diaId), t.nextId))
  }

  /** `citaRepository.verificarExistenciaCita(cedula, turnoId) != null`. */
  predicate VerificarExistenciaCita(t: Tables, cedula: string, turnoId: int) {
    exists k :: k in t.citas && t.citas[k].cliente == cedula && t.citas[k].turno == turnoId
  }

  /** `citaRepository.buscarCitaPorTurno(turnoId) != null`. */
  predicate BuscarCitaPorTurno(t: Tables, turnoId: int) {
    exists k :: k in t.citas && t.citas[k].turno == turnoId
  }
}
