/** Values shared by the contact book's components: the contact record and the
    outcome of a backend call. */
module Modelo {

  /** A nullable value: `contactoEnEdicion`, or an absent `etiqueta`. */
  datatype Option<+T> = None | Some(value: T) {
    function GetOr(default: T): T {
      match this
      case Some(v) => v
      case None => default
    }
  }

  /** What an awaited backend call settles to: a decoded JSON value, or a
      rejected promise (transport failure or non-2xx status). */
  datatype Respuesta<+T> = Exito(valor: T) | Fallo

  /** The server-assigned identifier; compared with `===`. */
  type Id = string

  /** A stored contact as the backend returns it. `etiqueta` is optional;
      the other fields are always present. */
  datatype Contacto = Contacto(
    id: Id,
    nombre: string,
    telefono: string,
    correo: string,
    etiqueta: Option<string>)

  /** The ids of a collection, in order. */
  function Ids(cs: seq<Contacto>): seq<Id> {
    seq(|cs|, i requires 0 <= i < |cs| => cs[i].id)
  }

  /** No id occurs twice (ids are server-assigned). */
  predicate IdsUnicos(cs: seq<Contacto>) {
    forall i, j :: 0 <= i < j < |cs| ==> cs[i].id != cs[j].id
  }

  /** `a` is `b` with some elements left out, the rest in their order. */
  predicate Subsecuencia(a: seq<Contacto>, b: seq<Contacto>)
    decreases |b|
  {
    if a == [] then true
    else if b == [] then false
    else (a[0] == b[0] && Subsecuencia(a[1..], b[1..])) || Subsecuencia(a, b[1..])
  }
}
