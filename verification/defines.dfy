/** The response catalog of the controllers.  Each constant of the catalog is a
    pair (code, text); the model keeps the constants abstract and records which
    constant supplied each field of a response. */
module Defines {

  datatype Define =
    | SUCCESS
    | FAILED
    | NO_CITAS
    | NO_AREAS
    | NO_AGENDAS
    | CITA_NOT_FOUND
    | CUSTOMER_NOT_FOUND
    | TURNO_NOT_FOUND
    | SERVICE_NOT_FOUND
    | TURNO_ASIGNADO
    | CITA_ALREADY_EXISTS
    | FALTAN_DATOS
    | AGENDA_NOT_FOUND
    | DIA_AGENDA_NOT_FOUND
    | TURNO_ALREADY_EXISTS

  /** A GenericResponse.  `Short(x, y)` is the two-argument form built from the
      text of x and the code of y; `Full(s, m, c)` is the three-argument form
      whose status is the text of s, whose message is the text of m and whose
      code is the code of c. */
  datatype GenericResponse =
    | Short(text: Define, code: Define)
    | Full(status: Define, message: Define, code: Define)

  /** The success response every mutating operation returns. */
  function Succeeded(): GenericResponse {
    Short(SUCCESS, SUCCESS)
  }

  /** The usual failure response: status FAILED, message and code of `d`. */
  function Failed(d: Define): GenericResponse {
    Full(FAILED, d, d)
  }
}
