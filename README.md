# Agenda ADSO contact book, modelled in Dafny

Agenda ADSO is a single-page contact book. The root component (`App`) holds
the contact list loaded from a REST backend. It creates, updates and deletes
contacts through that backend, and it shows a search-filtered list sorted by
name. A form component (`FormularioContacto`) holds a draft of four fields.
It validates the draft, mirrors the contact being edited, and calls back into
the root component to save.

This project models that client-side logic:

- `modelo.dfy` (module `Modelo`): the contact record `Contacto`, `Option`,
  and `Respuesta`, the settled outcome of one backend call (`Exito(value)` or
  `Fallo`). It also defines `Ids`, `IdsUnicos` (no id stored twice) and
  `Subsecuencia` (order-preserving sub-list).
- `texto.dfy` (module `Texto`): the string operations the code uses:
  `toLowerCase` (`Minusculas`), `trim` (`Recortar`, `EnBlanco`), `includes`
  (`Contiene`) and string `<` (`Menor`), each with the properties the rest
  of the model needs.
- `busqueda.dfy` (module `Busqueda`): the display pipeline. `Filtrar` is
  `contactosFiltrados`. `Comparar` is the sort comparator. `Ordenar` is a
  stable sort with that comparator. `Mostrar` is `contactosOrdenados`.
- `coleccion.dfy` (module `Coleccion`): the list updates applied after a save,
  `Reemplazar` (the `map` on update) and `Quitar` (the `filter` on delete).
- `formulario.dfy` (module `FormularioContacto`): the pure validator
  `Validar`, the one-field update `Cambiar`, and the class `Formulario`. The
  class has the state slots `form`, `errores` and `enviando`. `onSubmit` is
  split at its `await` into `IniciarEnvio` and `ConcluirEnvio`.
- `app.dfy` (module `App`): the class `Agenda`, whose fields are the root
  component's state slots and whose methods are its handlers. Every backend
  call is a `Respuesta` parameter, and every handler returns the `Peticion`
  (request) it issued. `EnviarFormulario`, `EditarDesdeTarjeta`,
  `CancelarDesdeFormulario` and `EliminarDesdeTarjeta` connect the form's handlers to the root
  component's callbacks.
- `ejemplos.dfy` (module `Ejemplos`): worked inputs: a search in capitals,
  the three-name sort, and a valid and an invalid draft.

The form resets its draft only after the awaited save callback returns
normally. When the callback throws, the draft and its messages are kept, and
only `enviando` is cleared, in the `finally` block
(src/components/FormularioContacto.jsx:109-151). `ConcluirEnvio`, `OnSubmit`
and `EnviarFormulario` state this.

## Model

| member | source | states |
|---|---|---|
| `Texto.Minusculas` | src/App.jsx:164-167 | lower-casing keeps the length, turns each upper-case letter into its lower-case partner, keeps every other character, and leaves a string without upper-case letters unchanged |
| `Texto.Recortar` | src/components/FormularioContacto.jsx:79-87 | `trim` is no longer than its input and neither starts nor ends with white space |
| `Texto.MinusculasIdempotente` | src/App.jsx:164-167 | lower-casing twice is lower-casing once |
| `Texto.RecortarInicioSufijo` | src/components/FormularioContacto.jsx:79 | trimming the start drops a white-space prefix and keeps a suffix that does not start with white space |
| `Texto.RecortarFinPrefijo` | src/components/FormularioContacto.jsx:79 | trimming the end drops a white-space suffix and keeps a prefix that does not end with white space |
| `Texto.RecortarEsRebanada` | src/components/FormularioContacto.jsx:79-87 | `trim` returns a slice `s[i..j]` with only white space outside it and none at its two ends |
| `Texto.RecortarVacio` | src/components/FormularioContacto.jsx:79-87 | `s.trim()` is empty exactly when every character of `s` is white space |
| `Texto.EnBlanco` | src/components/FormularioContacto.jsx:79-87 | `!s.trim()` holds exactly when every character of `s` is white space |
| `Texto.ContieneSiAparece` | src/App.jsx:170-172 | `s.includes(t)` holds exactly when `t` occurs at some position of `s` |
| `Texto.Contiene` | src/App.jsx:169-173 | every string includes `""`, and a string never includes a longer one |
| `Texto.ContieneCaracter` | src/components/FormularioContacto.jsx:89 | `s.includes("@")` is membership of `'@'` in `s` |
| `Texto.Menor` | src/App.jsx:181-182 | no string is `<` itself, and a proper prefix is `<` its extensions |
| `Texto.MenorPrimeraDiferencia` | src/App.jsx:181-182 | at the first position where two strings differ, the smaller character puts its string first |
| `Texto.MenorAsimetrico` | src/App.jsx:181-182 | `a < b` and `b < a` never both hold |
| `Texto.MenorTransitivo` | src/App.jsx:181-182 | string `<` is transitive |
| `Texto.MenorTotal` | src/App.jsx:181-182 | any two strings are `<`, equal, or `>` |
| `Busqueda.Coincide` | src/App.jsx:163-174 | a contact matches exactly when the lower-cased term occurs at some position of its lower-cased name, e-mail or tag (absent tag counts as `""`) |
| `Busqueda.CoincideSinMayusculas` | src/App.jsx:163-174 | a contact matches a term exactly when it matches the lower-cased term |
| `Busqueda.CoincideVacio` | src/App.jsx:163-174 | every contact matches the empty term |
| `Busqueda.FiltrarVacio` | src/App.jsx:163-174 | with an empty term the filter returns the whole collection in order |
| `Busqueda.Filtrar` | src/App.jsx:163-174 | the filter is no longer than the collection, and a contact is in it exactly when it is stored and matches the term |
| `Busqueda.FiltrarMultiplicidad` | src/App.jsx:163-174 | each matching contact is kept as often as it is stored; a non-matching one does not appear |
| `Busqueda.FiltrarSubsecuencia` | src/App.jsx:163-174 | the filtered list is an order-preserving sub-list of the collection |
| `Busqueda.Comparar` | src/App.jsx:177-184 | the comparator returns -1, 0 or 1 |
| `Busqueda.CompararSigno` | src/App.jsx:177-184 | the comparator is negative exactly when the first name sorts strictly first in the chosen direction, positive exactly when the second does, and zero exactly when the lower-cased names are equal |
| `Busqueda.CompararTransitivo` | src/App.jsx:177-184 | the comparator is consistent: "not after" is transitive |
| `Busqueda.Insertar` | src/App.jsx:177 | inserting into a list adds one element and puts either it or the old head first |
| `Busqueda.Ordenar` | src/App.jsx:177 | sorting keeps the length |
| `Busqueda.OrdenarPermutacion` | src/App.jsx:177 | the sorted list is a permutation of the filtered list |
| `Busqueda.OrdenarOrdenada` | src/App.jsx:177-184 | adjacent results are in comparator order |
| `Busqueda.OrdenarEstable` | src/App.jsx:177-184 | contacts with equal lower-cased names keep their relative order |
| `Busqueda.OrdenadaPar` | src/App.jsx:177-184 | comparator order of adjacent elements extends to every pair |
| `Busqueda.OrdenAscendente` | src/App.jsx:181-182 | ascending order means adjacent lower-cased names never decrease |
| `Busqueda.OrdenDescendente` | src/App.jsx:181-182 | descending order means adjacent lower-cased names never increase |
| `Busqueda.ConClavePertenencia` | src/App.jsx:177-184 | the contacts with key `k` are exactly the stored ones whose lower-cased name is `k` |
| `Busqueda.PrimeraClave` | src/App.jsx:177-184 | the head of a sorted list sorts no later than any element in it |
| `Busqueda.OrdenUnico` | src/App.jsx:177-184 | two sorted lists with the same contacts per key, in the same order per key, are equal |
| `Busqueda.Mostrar` | src/App.jsx:163-184 | the list on screen holds exactly the stored contacts that match, is a permutation of the filtered list, is sorted in the chosen direction, and keeps equal names in stored order |
| `Busqueda.MostrarUnico` | src/App.jsx:177-184 | any stable sort of the filtered list with this comparator equals the list on screen, whatever algorithm the engine uses |
| `Busqueda.MostrarSinBusqueda` | src/App.jsx:163-184 | an empty search term shows the whole collection, only sorted |
| `Coleccion.Reemplazar` | src/App.jsx:110-112 | the update keeps the length; each position holds the returned record if its id equals the returned id, and its old contact otherwise |
| `Coleccion.ReemplazarConservaIds` | src/App.jsx:110-112 | the update keeps every id in place, so unique ids stay unique |
| `Coleccion.ReemplazarIdempotente` | src/App.jsx:110-112 | applying the same update twice gives the same collection as applying it once |
| `Coleccion.ReemplazarAusente` | src/App.jsx:110-112 | a returned id that is not stored leaves the collection unchanged |
| `Coleccion.ReemplazarEnPosicion` | src/App.jsx:110-112 | with unique ids, the update writes the one position holding that id |
| `Coleccion.Quitar` | src/App.jsx:132 | the delete is no longer than the collection, and a contact survives exactly when it is stored and has another id |
| `Coleccion.QuitarMultiplicidad` | src/App.jsx:132 | every contact with another id keeps its multiplicity; those with the id are gone |
| `Coleccion.QuitarSubsecuencia` | src/App.jsx:132 | the survivors keep their order |
| `Coleccion.QuitarUnico` | src/App.jsx:132 | with unique ids, the delete keeps ids unique and removes one contact if the id is stored, none otherwise |
| `Coleccion.AgregarUnico` | src/App.jsx:83 | appending keeps ids unique exactly when the new id is not yet stored |
| `FormularioContacto.Cambiar` | src/components/FormularioContacto.jsx:66-73 | the named field takes the typed value and every other field keeps its value |
| `FormularioContacto.DesdeContacto` | src/components/FormularioContacto.jsx:36-41 | the mirrored draft copies name, phone and e-mail, and the tag becomes `""` when absent |
| `FormularioContacto.Validar` | src/components/FormularioContacto.jsx:76-100 | name and phone have a message exactly when blank after trimming; the e-mail message is "required" when blank, else "must contain @" when it has no `@`, else empty |
| `FormularioContacto.ValidarSiCompleto` | src/components/FormularioContacto.jsx:76-100 | the draft passes exactly when name, phone and e-mail each hold a non-white-space character and the e-mail holds `@` |
| `FormularioContacto.ValidarIgnoraEtiqueta` | src/components/FormularioContacto.jsx:76-100 | the tag never affects validation |
| `FormularioContacto.Formulario.constructor` | src/components/FormularioContacto.jsx:15-30 | the form starts with four empty fields, no messages, and not submitting |
| `FormularioContacto.Formulario.Sincronizar` | src/components/FormularioContacto.jsx:33-63 | an edit target is copied into the draft and no target empties it; either way the messages are cleared and `enviando` is untouched |
| `FormularioContacto.Formulario.OnChange` | src/components/FormularioContacto.jsx:66-73 | a keystroke changes only the named field of the draft |
| `FormularioContacto.Formulario.ValidarFormulario` | src/components/FormularioContacto.jsx:76-100 | the stored messages are those of the current draft, and the verdict is true exactly when none is set |
| `FormularioContacto.Formulario.IniciarEnvio` | src/components/FormularioContacto.jsx:103-117 | an invalid draft sends nothing and leaves `enviando` as it was; a valid one sets `enviando` and sends the draft plus the target's id in edit mode, or the bare draft in create mode |
| `FormularioContacto.Formulario.ConcluirEnvio` | src/components/FormularioContacto.jsx:119-151 | the draft and messages reset only when the callback succeeded; `enviando` is false afterwards |
| `FormularioContacto.Formulario.OnSubmit` | src/components/FormularioContacto.jsx:103-152 | the whole submit: nothing sent for an invalid draft; otherwise `enviando` ends false, the draft resets only on success, a throw propagates, and edit mode is cancelled only after a successful update |
| `App.Agenda.constructor` | src/App.jsx:30-45 | the initial state: no contacts, loading, no message, empty search, ascending, no edit target |
| `App.Agenda.Visibles` | src/App.jsx:163-184 | the list on screen holds exactly the stored contacts that match the search, as a permutation of the filtered list, sorted in the chosen direction and stable |
| `App.Agenda.CargarContactos` | src/App.jsx:49-71 | the loaded list replaces the collection, or the load message is set and the collection stays; loading is false afterwards |
| `App.Agenda.OnAgregarContacto` | src/App.jsx:74-96 | on success the returned record is appended and the message cleared; on failure the collection stays, the save message is set and the error is re-thrown |
| `App.Agenda.OnActualizarContacto` | src/App.jsx:99-123 | the request uses the payload's id; on success the entries with the returned id are replaced, ids are kept and edit mode ends; on failure collection and edit target stay, the message is set and the error is re-thrown |
| `App.Agenda.OnEliminarContacto` | src/App.jsx:126-147 | on success the entries with that id are removed and the edit target is cleared only if its id matches; on failure both stay and the message is set; nothing is re-thrown |
| `App.Agenda.OnEditarClick` | src/App.jsx:150-153 | the clicked contact becomes the edit target and the message is cleared |
| `App.Agenda.OnCancelarEdicion` | src/App.jsx:156-158 | the edit target is cleared and nothing else changes |
| `App.Agenda.SetBusqueda` | src/App.jsx:231 | the search term becomes the typed value and nothing else changes |
| `App.Agenda.AlternarOrden` | src/App.jsx:236 | the sort direction flips and nothing else changes |
| `App.EnviarFormulario` | src/components/FormularioContacto.jsx:103-152 | a submit through the root component's callbacks: an invalid draft changes nothing but the messages; a create success appends, a create failure sets the save message; an update success replaces and leaves edit mode; any success resets the draft, any failure keeps it; `enviando` ends false |
| `App.EditarDesdeTarjeta` | src/components/FormularioContacto.jsx:33-63 | the clicked contact becomes the edit target and the message is cleared; a new target loads its fields into the draft with no messages, while clicking the current target again leaves the draft and its messages alone; the collection, `cargando`, the search, the direction and `enviando` are kept |
| `App.CancelarDesdeFormulario` | src/components/FormularioContacto.jsx:252-260 | from edit mode, cancelling clears the target and empties the draft and its messages; the collection, the message, `cargando`, the search, the direction and `enviando` are kept |
| `App.EliminarDesdeTarjeta` | src/components/FormularioContacto.jsx:33-63 | a delete through the card, then the form's effect: a successful delete of the contact being edited clears the target and empties the draft and its messages; otherwise the form is kept; the collection and message follow `OnEliminarContacto`, and `cargando`, the search, the direction and `enviando` are kept |
| `Ejemplos.BuscarEtiquetaEnMayusculas` | src/App.jsx:163-174 | searching "TRAB" finds a contact tagged "Trabajo" |
| `Ejemplos.OrdenarNombres` | src/App.jsx:177-184 | "Beto", "ana", "Carla" sort as ana, Beto, Carla ascending and Carla, Beto, ana descending |
| `Ejemplos.OrdenarTresNombres` | src/App.jsx:177-184 | the stable sort of "Beto", "ana", "Carla" gives ana, Beto, Carla ascending and Carla, Beto, ana descending |
| `Ejemplos.BorradorAnaValido` | src/components/FormularioContacto.jsx:76-100 | the draft Ana / 3001234567 / ana@sena.edu.co passes validation |
| `Ejemplos.BorradorIncompleto` | src/components/FormularioContacto.jsx:79-91 | a white-space name and an e-mail without `@` each get their message, and a filled phone gets none |

## Left out

- The HTTP client (`listarContactos`, `crearContacto`, `actualizarContacto`, `eliminarContactoPorId`) is network I/O and is not part of this model. Each call's result is the `Respuesta` argument of the handler, and the handler returns the request it would issue.
- Asynchrony: each handler runs atomically from the call to the settled response. Requests in flight interleaving with other events ("last response wins") are not modelled. Neither is the `cargando` flag being true while the GET is pending; only the initial `true` and the final `false` are visible.
- `enviando` disabling the submit button is rendering. No handler uses it as a guard, so the model has no guard either.
- The form's effect that runs again after a successful update is not part of `EnviarFormulario`, because the prop goes from the target to `null`. It would reset a draft that the submit has already reset.
- `nombre`, `telefono` and `correo` are always present strings in `Contacto`. This makes the `|| ""` fallbacks in src/components/FormularioContacto.jsx:37-39 the identity. The filter's `TypeError` on a record without `nombre` or `correo` is not modelled.
- `Id` is a string. `===` between a numeric and a string id is not modelled.
- `App.EditarDesdeTarjeta`, `App.EliminarDesdeTarjeta`: the form's effect is run when the new target differs by value from the old one. React compares the prop by object identity, so a reloaded copy of the same contact would run it again; the model does not track object identity.
- `Texto.Minusculas` lower-cases ASCII letters only, not full Unicode case mapping.
- `Texto.Menor` compares characters by code point. JavaScript compares UTF-16 code units, and the two differ only between astral characters and U+E000–U+FFFF.
- `console.error` logging, `e.preventDefault()`, the JSX, the `APP_INFO` header and the styling classes are I/O or presentation.
- src/components/ContactoCard.jsx is presentation that forwards two callbacks. src/api.js is an older copy of the root component; its append and delete-filter are the ones modelled in `Coleccion` and `App`.
