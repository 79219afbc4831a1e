# Appointment booking and specialist schedules

This project models the two REST controllers of a dental-appointment backend in Dafny, and proves properties of that model.

- **`CitaController`** books clients onto time slots (`Turno`s). It keeps each slot's `estado` flag ("taken") in step with the appointments (`Cita`s) that point at it.
- **`AgendaController`** publishes a specialist's schedule. A schedule is a three-level hierarchy: Agenda (specialist, month, year) → DiaAgenda (day of the month) → Turno (start time, duration). It is built from 8-character slot codes, listed from today on, and deleted level by level.

The database is a value of `Store.Tables`: one map per table (agendas, days, slots, appointments), plus the sets of known client and service ids. It has a single id generator, `nextId`.

- The repository queries (`findBy*`, `verificarExistenciaAgenda`, `verificarExistenciaDiaAgenda`, `verificarExistenciaTurno`) are selections over these maps in ascending id order.
- `verificarExistenciaCita` and `buscarCitaPorTurno` are existence predicates. The controller only compares their results with null.
- `Persistence.Database` is a class whose fields are those tables. Its methods are the repositories' writes: `save` of a new row, `save` of an existing row, and `delete`. Reads (`findOne`, the queries) go through `Contents()`, the tables the fields hold, and the `Store` query functions over them.

Each endpoint that writes is a method over a `Database` that performs the controller's steps in the controller's order. The agenda listing is also a method, because the controller builds it with three nested loops. Each method is proved to leave the database, and to return the response, exactly as a pure function of the old tables says (`CitaModel`, `AgendaModel`). The appointment reads (`listarCitas`, `getCita`, `getCitaCliente`) have no loop and write nothing, so they are functions of the tables (`CitaController.ListarCitas`, `GetCita`, `GetCitaCliente`). Lemmas then state what the functions promise:

- appointments: the booking invariant and the error order;
- schedules: idempotence, uniqueness and coverage of the schedule upsert, including a request that throws part-way; and soundness, completeness and order of the listing;
- deletes: their existence checks.

Modules:

- `Wrappers`: the `Option` and `Result` types.
- `Defines`: the response catalogue, as abstract constants. `GenericResponse` has a short form (message, code) and a full form (status, message, code).
- `Store`: the tables, row types and repository queries.
- `Persistence`: the `Database` class.
- `SlotCode`: `Integer.parseInt`, the three fields of the `DDHHMMDU` slot codes, and decoding and encoding. Reading a field may fail, as the Java `substring` and `parseInt` calls may throw.
- `CitaModel`, `CitaController`, `CitaInvariants`: the appointment endpoints and their invariant.
- `AgendaModel`, `AgendaProperties`, `AgendaController`: the schedule endpoints and their properties.

## Model

Source paths are relative to the repository root.

| member | source | states |
|---|---|---|
| Store.FindAllCitas | src/main/java/com/amongusdev/controller/CitaController.java:39 | `findAll` returns exactly the stored appointments. |
| Store.FindByCliente | src/main/java/com/amongusdev/controller/CitaController.java:60 | `findByCliente` returns exactly the appointments of that client, and only those. |
| Store.FindByEspecialista | src/main/java/com/amongusdev/controller/AgendaController.java:55 | `findByEspecialista` returns exactly the specialist's agendas. |
| Store.FindByAgenda | src/main/java/com/amongusdev/controller/AgendaController.java:75 | `findByAgenda` returns exactly the days of that agenda. |
| Store.FindByDiaAgenda | src/main/java/com/amongusdev/controller/AgendaController.java:82 | `findByDiaAgenda` returns exactly the slots of that day. |
| Store.VerificarExistenciaAgenda | src/main/java/com/amongusdev/controller/AgendaController.java:103 | Finds an agenda with that month, year and specialist, and returns null only when none exists. |
| Store.VerificarExistenciaDiaAgenda | src/main/java/com/amongusdev/controller/AgendaController.java:112 | Finds a day of that agenda with that day of the month, and returns null only when none exists. |
| Store.VerificarExistenciaTurno | src/main/java/com/amongusdev/controller/AgendaController.java:117 | Finds a slot of that day with that start time, and returns null only when none exists. |
| Store.VerificarExistenciaCita | src/main/java/com/amongusdev/controller/CitaController.java:87 | Holds iff some appointment has that client and that slot (the repository result is not null). |
| Store.BuscarCitaPorTurno | src/main/java/com/amongusdev/controller/CitaController.java:186 | Holds iff some appointment points at that slot. |
| Persistence.Database.SaveNewTurno | src/main/java/com/amongusdev/controller/AgendaController.java:40-42 | `createTurno` stores the row under a fresh id and changes nothing else. |
| Persistence.Database.SaveNewDia | src/main/java/com/amongusdev/controller/AgendaController.java:44-46 | `createDiaAgenda` stores the row under a fresh id and changes nothing else. |
| Persistence.Database.SaveNewAgenda | src/main/java/com/amongusdev/controller/AgendaController.java:48-50 | `createAgenda` stores the row under a fresh id and changes nothing else. |
| Persistence.Database.SaveNewCita | src/main/java/com/amongusdev/controller/CitaController.java:89 | Saving a new appointment stores it under a fresh id and changes nothing else. |
| Persistence.Database.SaveTurno | src/main/java/com/amongusdev/controller/CitaController.java:92 | Saving an existing slot replaces that row only. |
| Persistence.Database.SaveCita | src/main/java/com/amongusdev/controller/CitaController.java:152 | Saving an existing appointment replaces that row only. |
| Persistence.Database.DeleteCita | src/main/java/com/amongusdev/controller/CitaController.java:116 | Removes exactly that appointment row. |
| Persistence.Database.DeleteAgenda | src/main/java/com/amongusdev/controller/AgendaController.java:133 | Removes exactly that agenda row. |
| Persistence.Database.DeleteDia | src/main/java/com/amongusdev/controller/AgendaController.java:146 | Removes exactly that day row. |
| Persistence.Database.DeleteTurno | src/main/java/com/amongusdev/controller/AgendaController.java:159 | Removes exactly that slot row. |
| SlotCode.Digit | src/main/java/com/amongusdev/controller/AgendaController.java:112 | `Character.digit(ch, 10)`, the digit reading `parseInt` uses: a value 0..9 for a decimal digit of any script in the Basic Multilingual Plane, the ASCII value for '0'..'9', and none for a sign. |
| SlotCode.DigitsValue | src/main/java/com/amongusdev/controller/AgendaController.java:112 | A run of characters has a decimal value iff every character is a digit. |
| SlotCode.DigitsValueShort | src/main/java/com/amongusdev/controller/AgendaController.java:112 | One or two characters read as digits give the one- or two-digit value, and nothing when one of them is not a digit. |
| SlotCode.ParseInt | src/main/java/com/amongusdev/controller/AgendaController.java:112 | `Integer.parseInt`, defined for every string: a result always fits a Java `int`. On two characters: two digits give their decimal value; a sign and a digit give the signed digit. A non-digit second character, or a first character that is neither digit nor sign, gives an error. The empty string, a lone sign and a lone non-digit give an error. |
| SlotCode.Dia | src/main/java/com/amongusdev/controller/AgendaController.java:112 | The day field: an error for a code shorter than two characters, else `parseInt` of the first two, so -9..99. |
| SlotCode.HoraInicio | src/main/java/com/amongusdev/controller/AgendaController.java:117 | The start-time field exists iff the code has at least six characters, and is then four characters long. |
| SlotCode.Duracion | src/main/java/com/amongusdev/controller/AgendaController.java:119 | The duration field: an error for a code shorter than eight characters, else `parseInt` of characters 6..8, so -9..99. |
| SlotCode.Decode | src/main/java/com/amongusdev/controller/AgendaController.java:112-119 | All three fields, present iff each can be read. A decoded code has at least eight characters, a day and duration in -9..99 and a four-character start. |
| SlotCode.TwoDigits | src/main/java/com/amongusdev/controller/AgendaController.java:112 | Two ASCII digits for 0..99, which `parseInt` reads back as the same number. |
| SlotCode.ParseTwoDigits | src/main/java/com/amongusdev/controller/AgendaController.java:112 | Two ASCII digits are the `TwoDigits` of the number they parse to. |
| SlotCode.DecodeEncode | src/main/java/com/amongusdev/controller/AgendaController.java:112-119 | Every slot with a two-digit day, a four-character start and a two-digit duration has a code that decodes back to it. |
| SlotCode.EncodeDecode | src/main/java/com/amongusdev/controller/AgendaController.java:112-119 | A code whose day and duration are written in ASCII digits is the encoding of its decoded slot. Characters after the eighth are ignored. |
| SlotCode.OtherScriptDigits | src/main/java/com/amongusdev/controller/AgendaController.java:112-119 | Arabic-Indic digits are read like ASCII ones, so two different codes decode to the same slot. |
| Store.Tables.SetEstado | src/main/java/com/amongusdev/controller/CitaController.java:209-214 | `setEstado` followed by `save`: the slot becomes its old row with the given flag. Every other slot, the set of slot ids and every other table stay the same. Also used for the writes at CitaController.java:90-92 and 113-115. |
| CitaModel.ValidarDatos | src/main/java/com/amongusdev/controller/CitaController.java:68-70 | Holds exactly when the request carries a client id, a non-zero slot id and a non-zero service id. When it does not hold, `CitaModel.Create` and `CitaModel.Update` reply FALTAN_DATOS without change. |
| CitaModel.CambiarEstadoTurno | src/main/java/com/amongusdev/controller/CitaController.java:205-217 | Reports a conflict iff the new slot is taken; on conflict nothing changes. Otherwise the new slot becomes taken and then slot `turnoActual` becomes free; no other slot and no appointment changes. When `turnoActual` is the new slot, the net effect is no change at all. |
| CitaModel.Create | src/main/java/com/amongusdev/controller/CitaController.java:68-106 | Error order: FALTAN_DATOS when client, slot or service id is missing; then CUSTOMER_NOT_FOUND, TURNO_NOT_FOUND, SERVICE_NOT_FOUND; then CITA_ALREADY_EXISTS for an existing (client, slot) pair, before TURNO_ASIGNADO for a taken slot. Every failure leaves the tables unchanged. Success happens iff all checks pass. It adds exactly one appointment (client, slot, time, service) under a fresh id and marks exactly that slot taken. |
| CitaModel.Delete | src/main/java/com/amongusdev/controller/CitaController.java:108-121 | Absent id: CITA_NOT_FOUND and no change. Present id: its slot becomes free, exactly that appointment is removed, and the reply is SUCCESS. |
| CitaModel.PartialUpdate | src/main/java/com/amongusdev/controller/CitaController.java:123-157 | Error order: CITA_NOT_FOUND, an unknown requested client (CUSTOMER_NOT_FOUND), TURNO_NOT_FOUND, a taken new slot (TURNO_ASIGNADO), SERVICE_NOT_FOUND. Flags change only when a non-zero slot id differs from the current one. The appointment row is saved, patched field by field, only on success. A SERVICE_NOT_FOUND after a move leaves the slots swapped. |
| CitaModel.PartialUpdateCorrected | src/main/java/com/amongusdev/controller/CitaController.java:123-157 | With the service lookup done before the swap, every failure leaves the tables unchanged. A successful move marks the new slot taken and the old one free, and changes no other slot. Without a move no flag changes. On success the row is patched field by field. |
| CitaModel.PartialUpdateCorrectedSameReplies | src/main/java/com/amongusdev/controller/CitaController.java:123-157 | The corrected partial update gives the same reply as the original for every request, so it makes the same checks in the same order. |
| CitaModel.Update | src/main/java/com/amongusdev/controller/CitaController.java:159-203 | Error order: FALTAN_DATOS, CITA_NOT_FOUND, CUSTOMER_NOT_FOUND, SERVICE_NOT_FOUND, TURNO_NOT_FOUND; TURNO_ASIGNADO when the new slot is taken or already booked. No slot flag ever changes. On success the row holds the new client, slot and service. |
| CitaModel.UpdateCorrected | src/main/java/com/amongusdev/controller/CitaController.java:159-203 | `turnoActual` is read before the slot is replaced, and the booked-slot lookup comes before any write. Every failure leaves the tables unchanged. A success marks the new slot taken and the old one free, changes no other slot, and stores the new client, slot and service. |
| CitaModel.UpdateCorrectedSameReplies | src/main/java/com/amongusdev/controller/CitaController.java:159-203 | The corrected full update gives the same reply as the original for every request, so it makes the same checks in the same order. |
| CitaController.ListarCitas | src/main/java/com/amongusdev/controller/CitaController.java:37-45 | Fails with NO_CITAS iff there is no appointment. Otherwise it lists exactly the stored appointments, in ascending id order. |
| CitaController.GetCita | src/main/java/com/amongusdev/controller/CitaController.java:47-55 | Returns the appointment iff it exists. Otherwise it returns the short CITA_NOT_FOUND response. |
| CitaController.GetCitaCliente | src/main/java/com/amongusdev/controller/CitaController.java:57-66 | Fails (NO_CITAS message, NO_AREAS code) iff the client has no appointment. Otherwise it lists exactly that client's appointments, in ascending id order. |
| CitaController.CambiarEstadoTurno | src/main/java/com/amongusdev/controller/CitaController.java:205-217 | The two saves leave the database as `CitaModel.CambiarEstadoTurno` says, and return its conflict flag. |
| CitaController.CreateCita | src/main/java/com/amongusdev/controller/CitaController.java:72-106 | Reply and new database are those of `CitaModel.Create`. |
| CitaController.DeleteCita | src/main/java/com/amongusdev/controller/CitaController.java:108-121 | Reply and new database are those of `CitaModel.Delete`. |
| CitaController.PartialUpdateCita | src/main/java/com/amongusdev/controller/CitaController.java:123-157 | Reply and new database are those of `CitaModel.PartialUpdate`. |
| CitaController.UpdateCita | src/main/java/com/amongusdev/controller/CitaController.java:159-203 | Reply and new database are those of `CitaModel.Update`. |
| CitaInvariants.MoveKeepsConsistent | src/main/java/com/amongusdev/controller/CitaController.java:205-217 | Moving one appointment to a free slot keeps the invariant, provided the new slot is marked taken and the old one free. The invariant: "taken iff some appointment points at it" and "one appointment per slot". |
| CitaInvariants.CreateKeepsConsistent | src/main/java/com/amongusdev/controller/CitaController.java:72-106 | `createCita` keeps the booking invariant on every path. |
| CitaInvariants.DeleteKeepsConsistent | src/main/java/com/amongusdev/controller/CitaController.java:108-121 | `deleteCita` keeps the booking invariant on every path. |
| CitaInvariants.PartialUpdateKeepsConsistent | src/main/java/com/amongusdev/controller/CitaController.java:123-157 | `partialUpdateCita` keeps the booking invariant on every path except the SERVICE_NOT_FOUND reply. |
| CitaInvariants.PartialUpdateServiceFailureBreaksFlags | src/main/java/com/amongusdev/controller/CitaController.java:135-150 | A move to a free slot with an unknown service replies SERVICE_NOT_FOUND, yet leaves a slot marked taken that no appointment points at. |
| CitaInvariants.PartialUpdateCorrectedKeepsConsistent | src/main/java/com/amongusdev/controller/CitaController.java:123-157 | With the service checked before the swap, the partial update keeps the invariant on every path. |
| CitaInvariants.UpdateMoveBreaksFlags | src/main/java/com/amongusdev/controller/CitaController.java:177-184 | A successful full update that changes the slot leaves the new slot marked free while the appointment points at it. |
| CitaInvariants.UpdateCorrectedKeepsConsistent | src/main/java/com/amongusdev/controller/CitaController.java:159-203 | The corrected full update keeps the invariant on every path. |
| CitaInvariants.SecondBookingRejected | src/main/java/com/amongusdev/controller/CitaController.java:87-98 | After a booking, a second booking of the same slot is rejected and changes nothing: CITA_ALREADY_EXISTS for the same client, TURNO_ASIGNADO for another. |
| CitaInvariants.DeleteUndoesCreate | src/main/java/com/amongusdev/controller/CitaController.java:89-93 | Deleting the appointment just created restores the tables. Only the id generator has advanced. |
| AgendaModel.IsUpcoming | src/main/java/com/amongusdev/controller/AgendaController.java:68 | The agenda test as written: year not before this year and month not before this month, each compared on its own. Whatever it admits, the corrected test admits too. |
| AgendaModel.IsUpcomingDay | src/main/java/com/amongusdev/controller/AgendaController.java:77 | The day test as written: day of the month not before today's, in whatever month. |
| AgendaModel.ListedDateNotPast | src/main/java/com/amongusdev/controller/AgendaController.java:68-77 | A day that passes both tests as written is today or later. The written tests only ever leave dates out; they never let a past date in. |
| AgendaModel.IsUpcomingMissesLaterYear | src/main/java/com/amongusdev/controller/AgendaController.java:68 | The agenda test as written rejects January 2025 in December 2024, a later month. |
| AgendaModel.IsUpcomingDayMissesLaterMonth | src/main/java/com/amongusdev/controller/AgendaController.java:77 | The day test as written rejects 5 June when today is 20 May, a later date. |
| AgendaModel.IsUpcomingCorrectedByMonth | src/main/java/com/amongusdev/controller/AgendaController.java:68 | The corrected agenda test holds iff the agenda's month is the current month or later. |
| AgendaModel.IsUpcomingDayCorrectedByDate | src/main/java/com/amongusdev/controller/AgendaController.java:68-77 | The corrected agenda and day tests together hold iff the day's date is today or later. |
| AgendaModel.TurnoList | src/main/java/com/amongusdev/controller/AgendaController.java:83-87 | One entry per slot id, in order, each a copy of that slot's row. |
| AgendaModel.DiaView | src/main/java/com/amongusdev/controller/AgendaController.java:78-80 | A listed day carries the day's id and day of the month. |
| AgendaModel.DiaViewTurnosSound | src/main/java/com/amongusdev/controller/AgendaController.java:82-87 | Every slot listed under a day belongs to that day, with its start, duration and flag. |
| AgendaModel.DiaViewTurnosComplete | src/main/java/com/amongusdev/controller/AgendaController.java:82-87 | Every slot of the day is listed. |
| AgendaModel.DiaViewTurnosOrdered | src/main/java/com/amongusdev/controller/AgendaController.java:82-87 | The slots of a day are listed in ascending id order. |
| AgendaModel.DiaListFilter | src/main/java/com/amongusdev/controller/AgendaController.java:76-89 | The day loop lists exactly the days that pass the day test, in order. |
| AgendaModel.AgendaView | src/main/java/com/amongusdev/controller/AgendaController.java:69-72 | A listed agenda carries the agenda's id, month and year. |
| AgendaModel.AgendaViewDiasSound | src/main/java/com/amongusdev/controller/AgendaController.java:75-90 | Every day listed under an agenda belongs to it and passes the day test. |
| AgendaModel.AgendaViewDiasComplete | src/main/java/com/amongusdev/controller/AgendaController.java:75-90 | Every day of the agenda that passes the day test is listed. |
| AgendaModel.AgendaViewDiasOrdered | src/main/java/com/amongusdev/controller/AgendaController.java:75-90 | The days of an agenda are listed in ascending id order. |
| AgendaModel.AgendaViewSkipsEarlierDays | src/main/java/com/amongusdev/controller/AgendaController.java:77 | A day whose day of the month is before today's is never listed, whatever its month. |
| AgendaModel.AgendaListFilter | src/main/java/com/amongusdev/controller/AgendaController.java:66-72 | The agenda loop lists exactly the agendas that pass the agenda test, in order. |
| AgendaModel.AgendaEspecialista | src/main/java/com/amongusdev/controller/AgendaController.java:52-98 | Fails (NO_AGENDAS message, NO_AREAS code) iff the specialist has no agenda at all. An empty list is a success. |
| AgendaModel.AgendaEspecialistaSound | src/main/java/com/amongusdev/controller/AgendaController.java:63-72 | Every listed agenda is one of the specialist's and passes the agenda test. |
| AgendaModel.AgendaEspecialistaComplete | src/main/java/com/amongusdev/controller/AgendaController.java:63-72 | Every agenda of the specialist that passes the test is listed, carrying that agenda's view. |
| AgendaModel.AgendaEspecialistaOrdered | src/main/java/com/amongusdev/controller/AgendaController.java:66-72 | Agendas are listed in ascending id order. |
| AgendaModel.AgendaEspecialistaSkipsEarlierMonths | src/main/java/com/amongusdev/controller/AgendaController.java:68 | An agenda whose month number is before the current one is never listed, whatever its year. |
| AgendaModel.InsertAgendaKeepsOne | src/main/java/com/amongusdev/controller/AgendaController.java:103-109 | Inserting an agenda that the lookup did not find keeps one agenda per (month, year, specialist). |
| AgendaModel.InsertDiaKeepsOne | src/main/java/com/amongusdev/controller/AgendaController.java:112-115 | Inserting a day that the lookup did not find keeps one day per (agenda, day of the month). |
| AgendaModel.InsertTurnoKeepsOne | src/main/java/com/amongusdev/controller/AgendaController.java:117-120 | Inserting a slot that the lookup did not find keeps one slot per (day, start time). |
| AgendaModel.AgendaFor | src/main/java/com/amongusdev/controller/AgendaController.java:103-109 | Find-or-create the month's agenda. It adds a row only when the lookup misses. The returned id is the one the lookup finds afterwards. Uniqueness is kept. |
| AgendaModel.DiaFor | src/main/java/com/amongusdev/controller/AgendaController.java:112-115 | Find-or-create the day. The tables change iff the lookup misses, and the lookup then finds the new row. Uniqueness is kept. |
| AgendaModel.TurnoFor | src/main/java/com/amongusdev/controller/AgendaController.java:117-120 | Find-or-create the slot. The tables change iff no slot of the day has that start. A new slot is free and carries the code's duration. |
| AgendaModel.Covers | src/main/java/com/amongusdev/controller/AgendaController.java:112-117 | A code is covered when its day and start fields can be read and both lookups find a row. The duration field plays no part. |
| AgendaModel.AddSlot | src/main/java/com/amongusdev/controller/AgendaController.java:111-121 | One iteration. A covered code changes nothing and completes. A code whose fields can all be read completes, and is covered afterwards. An unreadable day throws before any write. A code too short for a start time throws after finding or creating the day, without a slot. A missing slot with an unreadable duration throws, with the day saved. New rows are the code's day and slot, and a new slot is free. |
| AgendaModel.AddSlotFailsAgain | src/main/java/com/amongusdev/controller/AgendaController.java:111-121 | A code that threw throws again at the same point on the tables it left, without writing. |
| AgendaModel.CoversGrow | src/main/java/com/amongusdev/controller/AgendaController.java:112-117 | A covered code stays covered, by the same day, while the tables only gain rows. |
| AgendaModel.CoversCons | src/main/java/com/amongusdev/controller/AgendaController.java:111-121 | Coverage of the first code, carried to grown tables, and coverage of the rest give coverage of the whole list. |
| AgendaModel.AddSlots | src/main/java/com/amongusdev/controller/AgendaController.java:111-121 | The loop stops at the first code that throws and keeps what was saved. It only adds rows, never changes an agenda, and keeps the tables valid. |
| AgendaModel.AddSlotsCovers | src/main/java/com/amongusdev/controller/AgendaController.java:111-121 | A loop that completes leaves every submitted code covered by a day and a slot of the agenda. |
| AgendaModel.AddSlotsCompletes | src/main/java/com/amongusdev/controller/AgendaController.java:111-121 | When every code can be read in full, the loop completes. |
| AgendaModel.AddSlotsFails | src/main/java/com/amongusdev/controller/AgendaController.java:111-121 | A loop that throws does so at a code that cannot be read in full, and every code before it is covered. |
| AgendaModel.AddSlotsCovered | src/main/java/com/amongusdev/controller/AgendaController.java:111-121 | When every code is already covered, the loop changes nothing and completes. |
| AgendaModel.AddSlotsAgain | src/main/java/com/amongusdev/controller/AgendaController.java:111-121 | Running the loop again on the tables it left, with the same codes, changes nothing and ends the same way. |
| AgendaModel.AddSlotsUnique | src/main/java/com/amongusdev/controller/AgendaController.java:111-121 | The loop keeps one day per (agenda, day) and one slot per (day, start), even when it throws. |
| AgendaModel.CreateHorario | src/main/java/com/amongusdev/controller/AgendaController.java:100-122 | `createHorario` only adds rows, whether or not it throws. Afterwards an agenda for (month, year, specialist) exists. The only new agenda is that one. |
| AgendaModel.DeleteAgenda | src/main/java/com/amongusdev/controller/AgendaController.java:124-135 | Succeeds iff the agenda exists and removes exactly that row. Otherwise it replies AGENDA_NOT_FOUND with no change. |
| AgendaModel.DeleteDiaAgenda | src/main/java/com/amongusdev/controller/AgendaController.java:137-148 | Succeeds iff the day exists and removes exactly that row. Otherwise it replies DIA_AGENDA_NOT_FOUND with no change. |
| AgendaModel.DeleteTurno | src/main/java/com/amongusdev/controller/AgendaController.java:150-161 | Succeeds iff the slot exists and removes exactly that row. Otherwise it replies with the TURNO_NOT_FOUND message and the TURNO_ALREADY_EXISTS code, with no change. |
| AgendaModel.DeleteAgendaTwice | src/main/java/com/amongusdev/controller/AgendaController.java:124-135 | A second delete of the same agenda replies AGENDA_NOT_FOUND and changes nothing. |
| AgendaModel.DeleteDiaAgendaTwice | src/main/java/com/amongusdev/controller/AgendaController.java:137-148 | A second delete of the same day replies DIA_AGENDA_NOT_FOUND and changes nothing. |
| AgendaModel.DeleteTurnoTwice | src/main/java/com/amongusdev/controller/AgendaController.java:150-161 | A second delete of the same slot replies not found and changes nothing. |
| AgendaProperties.AgendaOf | src/main/java/com/amongusdev/controller/AgendaController.java:103-109 | The agenda `createHorario` fills is (month, year, specialist). |
| AgendaProperties.AgendaOfIsFound | src/main/java/com/amongusdev/controller/AgendaController.java:103-109 | That agenda is the one the find-or-create step returns. |
| AgendaProperties.CreateHorarioCovers | src/main/java/com/amongusdev/controller/AgendaController.java:111-121 | After a `createHorario` that completes, the month's agenda covers every submitted code. |
| AgendaProperties.CreateHorarioCompletes | src/main/java/com/amongusdev/controller/AgendaController.java:111-121 | A request whose codes can all be read in full completes. |
| AgendaProperties.CreateHorarioFails | src/main/java/com/amongusdev/controller/AgendaController.java:111-121 | A request that throws does so at a code that cannot be read in full. The agenda and the days and slots of every earlier code stay saved. |
| AgendaProperties.CreateHorarioIdempotent | src/main/java/com/amongusdev/controller/AgendaController.java:100-122 | Running `createHorario` a second time with the same arguments leaves the tables unchanged, and the second run completes or throws as the first did. |
| AgendaProperties.CreateHorarioUnique | src/main/java/com/amongusdev/controller/AgendaController.java:100-122 | Started from unique tables, there is still one agenda per (month, year, specialist), one day per (agenda, day) and one slot per (day, start), even when the request throws. |
| AgendaProperties.OnlyDia | src/main/java/com/amongusdev/controller/AgendaController.java:112-115 | With one day per (agenda, day of the month), a day row identifies its id. |
| AgendaProperties.OnlyTurno | src/main/java/com/amongusdev/controller/AgendaController.java:117-120 | With one slot per (day, start), a day and start identify the slot. |
| AgendaProperties.CreateHorarioOneDia | src/main/java/com/amongusdev/controller/AgendaController.java:112-115 | After a request that completes, each code has exactly one day row for (agenda, code's day). |
| AgendaProperties.CreateHorarioOneTurno | src/main/java/com/amongusdev/controller/AgendaController.java:117-120 | After a request that completes, each code has exactly one slot for (its day, code's start time). |
| AgendaProperties.CreateHorarioKeepsRows | src/main/java/com/amongusdev/controller/AgendaController.java:117-120 | Existing rows are untouched whether or not the request throws, so an existing slot keeps its duration and flag whatever duration the code carries. |
| AgendaProperties.NewDiasStep | src/main/java/com/amongusdev/controller/AgendaController.java:112-115 | The days the first code adds and the days the rest of the loop adds together come from the submitted codes. |
| AgendaProperties.AddSlotsNewDias | src/main/java/com/amongusdev/controller/AgendaController.java:112-115 | Every day the loop adds belongs to the agenda and has the day of some submitted code, whether or not the loop throws. |
| AgendaProperties.NewTurnosStep | src/main/java/com/amongusdev/controller/AgendaController.java:117-120 | The same step for slots. |
| AgendaProperties.AddSlotsNewTurnos | src/main/java/com/amongusdev/controller/AgendaController.java:117-120 | Every slot the loop adds is free, hangs off a day of the agenda, and has the start and duration of some submitted code, whether or not the loop throws. |
| AgendaProperties.CreateHorarioNewAgenda | src/main/java/com/amongusdev/controller/AgendaController.java:103-109 | The only agenda `createHorario` may add is the month's agenda. |
| AgendaController.CollectTurnos | src/main/java/com/amongusdev/controller/AgendaController.java:82-87 | The innermost loop builds exactly `TurnoList` of the day's slots. |
| AgendaController.AttachDias | src/main/java/com/amongusdev/controller/AgendaController.java:75-90 | The day loop, appending to the last listed agenda, turns that entry into the agenda's full view. |
| AgendaController.GetAgendaEspecialista | src/main/java/com/amongusdev/controller/AgendaController.java:52-98 | The three nested loops return exactly `AgendaModel.AgendaEspecialista`. |
| AgendaController.FindOrCreateAgenda | src/main/java/com/amongusdev/controller/AgendaController.java:103-109 | Leaves the database and returns the id as `AgendaModel.AgendaFor` says. |
| AgendaController.UpsertSlot | src/main/java/com/amongusdev/controller/AgendaController.java:112-120 | One loop iteration, reading each field only where the controller does. It leaves the database, and reports whether it threw, as `AgendaModel.AddSlot` says. |
| AgendaController.CreateHorario | src/main/java/com/amongusdev/controller/AgendaController.java:100-122 | Stops at the first code that throws. It leaves the database, and reports whether the request completed, as `AgendaModel.CreateHorario` says. |
| AgendaController.DeleteAgenda | src/main/java/com/amongusdev/controller/AgendaController.java:124-135 | Reply and new database are those of `AgendaModel.DeleteAgenda`. |
| AgendaController.DeleteDiaAgenda | src/main/java/com/amongusdev/controller/AgendaController.java:137-148 | Reply and new database are those of `AgendaModel.DeleteDiaAgenda`. |
| AgendaController.DeleteTurno | src/main/java/com/amongusdev/controller/AgendaController.java:150-161 | Reply and new database are those of `AgendaModel.DeleteTurno`. |

## Left out

- **Spring plumbing.** Routing, `ResponseEntity`/`HttpStatus`, dependency injection and Swagger annotations are not modelled. A `ResponseEntity` body is modelled as a `Result`.
- **The clock.** `Calendar.getInstance()` is a parameter: `fecha` (an `int`) in `createCita`, and `now` (year, 0-based month, day of the month) in the listing.
- **`Defines` and `GenericResponse`.** `Defines` is not part of this model, so their values are abstract enum constants. Only which constant sits in which position is modelled.
- **Repository internals.** Repository interfaces and their queries are not part of this model. Queries are selections over the maps, and ascending id stands for the repositories' order.
- **Cascading deletes.** The storage layer cascades deletes of agendas and days to their children. The model's deletes remove exactly one row.
- **JPA dirty tracking.** A managed entity mutated but not saved (for example a `Cita` whose fields were set before a failing check) is not written back in the model.
- **`BeanUtils.copyProperties`.** Replaced by explicit construction of the listed records.
- **Exceptions in `createHorario`.** An exception from `substring` or `Integer.parseInt` is modelled as the end of the request: `completed` is false. The two exception types are not told apart. The HTTP 500 response is not modelled. No transaction spans the request, so the rows saved before the exception stay.
- SlotCode.Digit: the digit runs are those of Unicode 6.2 in the Basic Multilingual Plane, the table of Java 8. Runs added in later Unicode versions, which a later Java would accept, are not included.
- SlotCode.HoraInicio: Java indexes a `String` by UTF-16 unit, and the model indexes by character. The two agree for codes made of Basic Multilingual Plane characters. For a code with a character outside it, Java's `substring` offsets, and so the fields read, differ from the model's. A lone surrogate, which `Integer.parseInt` rejects as a non-digit, cannot occur in the model's strings.
- **New slot flag.** The `Turno(horaInicio, duracion, diaAgenda)` constructor is not part of this model. A new slot is taken to start free.
- **The null specialist.** `createAgenda` stores the result of `especialistaRepository.findOne`, which may be null. The model stores the specialist id it was given and does not check that the specialist exists.
- **Concurrency.** Two concurrent bookings of one slot, and the non-atomic flag swap, are not modelled. Every operation runs alone.
- CitaModel.CambiarEstadoTurno: when no slot has id `turnoActual`, the Java code throws a `NullPointerException`. The model skips the second write instead. The case is reachable in the model: `AgendaModel.DeleteTurno` can remove a slot that an appointment still points at (see the next two lines).
- CitaModel.Delete: when the appointment's slot no longer exists, `cita.getTurnoId().setEstado(false)` (CitaController.java:113-116) would throw. The model skips the flag write, removes the appointment and replies SUCCESS. The booking invariant `CitaInvariants.Consistent` does not require every appointment's slot to exist.
- AgendaModel.DeleteTurno: the database's foreign key from an appointment to its slot would either refuse the delete of a booked slot or cascade it to the appointment. The model removes the slot row alone and leaves the appointment pointing at a missing slot. The same holds for `AgendaModel.DeleteAgenda` and `AgendaModel.DeleteDiaAgenda`, which do not cascade to days and slots.
- CitaModel.PartialUpdate: at CitaController.java:130-133 the second `if` is not braced under the first, so the null-client check also runs when the request names no client. A stored appointment always has a client here, so in the model that check fails only for an unknown requested client.
- **Behaviour of the code a reader may not expect** (modelled as the code has it):
  - A full update that moves an appointment leaves the new slot free and the old one taken (CitaController.java:177-183). It does not leave them taken and free.
  - A specialist with no agendas gets a FAILED response, not an empty list.
  - A partial update's flag swap is saved even when a later check fails.

## Findings

| source | as written | input that shows it | evidently intended | confidence | as-written member | corrected member |
|---|---|---|---|---|---|---|
| src/main/java/com/amongusdev/controller/CitaController.java:177-183 | `turnoActual` is read after the appointment's slot was replaced, so `cambiarEstadoTurno` marks the new slot taken and then frees that same slot | appointment on taken slot A; PUT with a free slot B, known client and service: the reply is SUCCESS, the appointment points at B, B stays free and A stays taken | read `turnoActual` before the slot is replaced, so B becomes taken and A free | high (not executed) | CitaModel.Update, CitaInvariants.UpdateMoveBreaksFlags | CitaModel.UpdateCorrected, CitaInvariants.UpdateCorrectedKeepsConsistent |
| src/main/java/com/amongusdev/controller/CitaController.java:139-149 | the slots are swapped and saved before the service is looked up; a missing service then returns without saving the appointment | appointment on A; PATCH with a free slot B and an unknown service id: the reply is SERVICE_NOT_FOUND, B is marked taken with no appointment on it, and A is free although its appointment still points at it | a failed update changes nothing: check the service before swapping | high (not executed) | CitaModel.PartialUpdate, CitaInvariants.PartialUpdateServiceFailureBreaksFlags | CitaModel.PartialUpdateCorrected, CitaInvariants.PartialUpdateCorrectedKeepsConsistent |
| src/main/java/com/amongusdev/controller/AgendaController.java:68-77 | year and month are compared separately, and the day of the month is compared in every month | today 20 December 2024: the January 2025 agenda is not listed; today 20 May 2024: day 5 of the June 2024 agenda is not listed | list every agenda from the current month on, and every day from today on | medium (not executed) | AgendaModel.IsUpcomingMissesLaterYear, AgendaModel.IsUpcomingDayMissesLaterMonth | AgendaModel.IsUpcomingCorrectedByMonth, AgendaModel.IsUpcomingDayCorrectedByDate |

The controllers are modelled as written. The as-written members are what `CitaController.UpdateCita`, `CitaController.PartialUpdateCita` and `AgendaController.GetAgendaEspecialista` are proved against.
