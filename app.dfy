/** The root component: the authoritative contact collection, the banner
    message, the loading flag, the edit target and the search/sort controls,
    with the handlers that change them. Each backend call is an input
    `Respuesta`; each handler returns the request it issued. */
module App {
  import opened Modelo
  import opened Busqueda
  import opened Coleccion
  import opened FormularioContacto

  const ErrorCargar :=
    "No se pudieron cargar los contactos. Verifica que el servidor est\U{E9} encendido e intenta de nuevo."
  const ErrorGuardar :=
    "No se pudo guardar el contacto. Verifica tu conexi\U{F3}n o el estado del servidor e intenta nuevamente."
  const ErrorActualizar :=
    "No se pudo actualizar el contacto. Verifica tu conexi\U{F3}n o el servidor e intenta nuevamente."
  const ErrorEliminar :=
    "No se pudo eliminar el contacto. Vuelve a intentarlo o verifica el servidor."

  /** The backend requests: `listarContactos()`, `crearContacto(form)`,
      `actualizarContacto(id, { ...form, id })`, `eliminarContactoPorId(id)`. */
  datatype Peticion =
    | Listar
    | Crear(campos: Campos)
    | ActualizarPorId(id: Id, campos: Campos)
    | EliminarPorId(id: Id)

  class Agenda {
    var contactos: seq<Contacto>
    var cargando: bool
    var error: string
    var busqueda: string
    var ordenAsc: bool
    var contactoEnEdicion: Option<Contacto>

    /** The initial `useState` values. */
    constructor ()
      ensures contactos == [] && cargando && error == ""
      ensures busqueda == "" && ordenAsc && contactoEnEdicion == None
    {
      contactos := [];
      cargando := true;
      error := "";
      busqueda := "";
      ordenAsc := true;
      contactoEnEdicion := None;
    }

    /** `contactosOrdenados`, the list on screen: exactly the stored
        contacts that match the search, in name order for the chosen
        direction, equal names in stored order. */
    function Visibles(): (r: seq<Contacto>)
      reads this
      ensures forall x :: x in r <==> x in contactos && Coincide(x, busqueda)
      ensures multiset(r) == multiset(Filtrar(contactos, busqueda))
      ensures Ordenada(r, ordenAsc)
      ensures Estable(r, Filtrar(contactos, busqueda))
    {
      Mostrar(contactos, busqueda, ordenAsc)
    }

    /** `cargarContactos`, run once on mount: the list replaces the
        collection, or the load message is shown; `finally` clears
        `cargando`. */
    method CargarContactos(respuesta: Respuesta<seq<Contacto>>) returns (peticion: Peticion)
      modifies this
      ensures peticion == Listar
      ensures !cargando
      ensures contactos == (if respuesta.Exito? then respuesta.valor else old(contactos))
      ensures error == (if respuesta.Exito? then "" else ErrorCargar)
      ensures busqueda == old(busqueda) && ordenAsc == old(ordenAsc)
      ensures contactoEnEdicion == old(contactoEnEdicion)
    {
      cargando := true;
      error := "";
      peticion := Listar;
      match respuesta {
        case Exito(data) =>
          contactos := data;
        case Fallo =>
          error := ErrorCargar;
      }
      cargando := false;
    }

    /** `onAgregarContacto`: on success the stored record is appended; on
        failure the collection stays, the save message is shown and the
        error is re-thrown (`lanza`). */
    method OnAgregarContacto(nuevoContacto: Campos, respuesta: Respuesta<Contacto>)
      returns (peticion: Peticion, lanza: bool)
      modifies this
      ensures peticion == Crear(nuevoContacto)
      ensures lanza <==> respuesta.Fallo?
      ensures contactos == (if respuesta.Exito? then old(contactos) + [respuesta.valor]
                            else old(contactos))
      ensures error == (if respuesta.Exito? then "" else ErrorGuardar)
      ensures old(IdsUnicos(contactos)) && respuesta.Exito? ==>
                (IdsUnicos(contactos) <==> respuesta.valor.id !in Ids(old(contactos)))
      ensures cargando == old(cargando) && busqueda == old(busqueda) && ordenAsc == old(ordenAsc)
      ensures contactoEnEdicion == old(contactoEnEdicion)
    {
      error := "";
      peticion := Crear(nuevoContacto);
      lanza := false;
      match respuesta
      case Exito(creado) =>
        if IdsUnicos(contactos) { AgregarUnico(contactos, creado); }
        contactos := contactos + [creado];
      case Fallo =>
        error := ErrorGuardar;
        lanza := true;
    }

    /** `onActualizarContacto`: the request goes to the payload's id; on
        success every stored contact with the returned record's id is
        replaced by it and edit mode ends; on failure nothing but the
        message changes and the error is re-thrown. */
    method OnActualizarContacto(campos: Campos, id: Id, respuesta: Respuesta<Contacto>)
      returns (peticion: Peticion, lanza: bool)
      modifies this
      ensures peticion == ActualizarPorId(id, campos)
      ensures lanza <==> respuesta.Fallo?
      ensures contactos == (if respuesta.Exito? then Reemplazar(old(contactos), respuesta.valor)
                            else old(contactos))
      ensures contactoEnEdicion == (if respuesta.Exito? then None else old(contactoEnEdicion))
      ensures error == (if respuesta.Exito? then "" else ErrorActualizar)
      ensures Ids(contactos) == Ids(old(contactos))
      ensures old(IdsUnicos(contactos)) ==> IdsUnicos(contactos)
      ensures cargando == old(cargando) && busqueda == old(busqueda) && ordenAsc == old(ordenAsc)
    {
      error := "";
      peticion := ActualizarPorId(id, campos);
      lanza := false;
      match respuesta
      case Exito(actualizado) =>
        ReemplazarConservaIds(contactos, actualizado);
        contactos := Reemplazar(contactos, actualizado);
        contactoEnEdicion := None;
      case Fallo =>
        error := ErrorActualizar;
        lanza := true;
    }

    /** `onEliminarContacto`: on success every contact with that id is
        dropped and edit mode ends if its target has that id; on failure
        only the message changes. The error is not re-thrown. */
    method OnEliminarContacto(id: Id, respuesta: Respuesta<()>) returns (peticion: Peticion)
      modifies this
      ensures peticion == EliminarPorId(id)
      ensures contactos == (if respuesta.Exito? then Quitar(old(contactos), id) else old(contactos))
      ensures contactoEnEdicion
              == (if respuesta.Exito? && old(contactoEnEdicion).Some?
                     && old(contactoEnEdicion).value.id == id
                  then None else old(contactoEnEdicion))
      ensures error == (if respuesta.Exito? then "" else ErrorEliminar)
      ensures id !in Ids(contactos) || respuesta.Fallo?
      ensures old(IdsUnicos(contactos)) ==> IdsUnicos(contactos)
      ensures cargando == old(cargando) && busqueda == old(busqueda) && ordenAsc == old(ordenAsc)
    {
      error := "";
      peticion := EliminarPorId(id);
      match respuesta
      case Exito(_) =>
        if IdsUnicos(contactos) { QuitarUnico(contactos, id); }
        contactos := Quitar(contactos, id);
        if contactoEnEdicion.Some? && contactoEnEdicion.value.id == id {
          contactoEnEdicion := None;
        }
      case Fallo =>
        error := ErrorEliminar;
    }

    /** `onEditarClick`: the clicked contact becomes the edit target and the
        banner is cleared. */
    method OnEditarClick(contacto: Contacto)
      modifies this
      ensures contactoEnEdicion == Some(contacto) && error == ""
      ensures contactos == old(contactos) && cargando == old(cargando)
      ensures busqueda == old(busqueda) && ordenAsc == old(ordenAsc)
    {
      contactoEnEdicion := Some(contacto);
      error := "";
    }

    /** `onCancelarEdicion`: back to create mode. */
    method OnCancelarEdicion()
      modifies this
      ensures contactoEnEdicion == None
      ensures contactos == old(contactos) && error == old(error) && cargando == old(cargando)
      ensures busqueda == old(busqueda) && ordenAsc == old(ordenAsc)
    {
      contactoEnEdicion := None;
    }

    /** The search box's `onChange`. */
    method SetBusqueda(valor: string)
      modifies this
      ensures busqueda == valor
      ensures contactos == old(contactos) && error == old(error) && cargando == old(cargando)
      ensures ordenAsc == old(ordenAsc) && contactoEnEdicion == old(contactoEnEdicion)
    {
      busqueda := valor;
    }

    /** The sort button: `setOrdenAsc((prev) => !prev)`. */
    method AlternarOrden()
      modifies this
      ensures ordenAsc == !old(ordenAsc)
      ensures contactos == old(contactos) && error == old(error) && cargando == old(cargando)
      ensures busqueda == old(busqueda) && contactoEnEdicion == old(contactoEnEdicion)
    {
      ordenAsc := !ordenAsc;
    }
  }

  /** A submit of the form as the root component wires it: `onAgregar` is
      `OnAgregarContacto`, `onActualizar` is `OnActualizarContacto`, and the
      form's edit target is the component's. */
  method EnviarFormulario(app: Agenda, f: Formulario, respuesta: Respuesta<Contacto>)
    returns (peticion: Option<Peticion>, lanza: bool)
    modifies app, f
    ensures peticion.None? <==> !SinFallos(Validar(old(f.form)))
    ensures peticion.None? ==>
              !lanza && f.form == old(f.form) && f.errores == Validar(old(f.form))
              && f.enviando == old(f.enviando)
              && app.contactos == old(app.contactos) && app.error == old(app.error)
              && app.contactoEnEdicion == old(app.contactoEnEdicion)
    ensures peticion.Some? ==> !f.enviando && (lanza <==> respuesta.Fallo?)
    ensures peticion.Some? && respuesta.Exito? ==>
              f.form == Vacio && f.errores == SinErrores
              && app.error == "" && app.contactoEnEdicion == None
    ensures peticion.Some? && respuesta.Fallo? ==>
              f.form == old(f.form) && f.errores == Validar(old(f.form))
              && app.contactos == old(app.contactos)
              && app.contactoEnEdicion == old(app.contactoEnEdicion)
    ensures peticion.Some? && old(app.contactoEnEdicion).None? ==>
              peticion.value == Crear(old(f.form))
              && app.contactos == (if respuesta.Exito? then old(app.contactos) + [respuesta.valor]
                                   else old(app.contactos))
              && (respuesta.Fallo? ==> app.error == ErrorGuardar)
    ensures peticion.Some? && old(app.contactoEnEdicion).Some? ==>
              peticion.value == ActualizarPorId(old(app.contactoEnEdicion).value.id, old(f.form))
              && app.contactos == (if respuesta.Exito? then Reemplazar(old(app.contactos), respuesta.valor)
                                   else old(app.contactos))
              && (respuesta.Fallo? ==> app.error == ErrorActualizar)
    ensures app.cargando == old(app.cargando) && app.busqueda == old(app.busqueda)
    ensures app.ordenAsc == old(app.ordenAsc)
  {
    lanza := false;
    var envio := f.IniciarEnvio(app.contactoEnEdicion);
    if envio.None? {
      return None, false;
    }
    var p: Peticion;
    match envio.value {
      case Agregar(campos) =>
        p, lanza := app.OnAgregarContacto(campos, respuesta);
      case Actualizar(campos, id) =>
        p, lanza := app.OnActualizarContacto(campos, id, respuesta);
    }
    peticion := Some(p);
    f.ConcluirEnvio(!lanza);
    if !lanza && envio.value.Actualizar? {
      app.OnCancelarEdicion();
    }
  }

  /** Clicking "Editar" on a card, then the form's effect, which depends on
      `[contactoEnEdicion]` and so runs only when the edit target changes:
      a new target loads the contact's fields into the draft with no
      messages; clicking the current target again keeps the draft and its
      messages as they are. */
  method EditarDesdeTarjeta(app: Agenda, f: Formulario, contacto: Contacto)
    modifies app, f
    ensures app.contactoEnEdicion == Some(contacto) && app.error == ""
    ensures app.contactos == old(app.contactos) && app.cargando == old(app.cargando)
    ensures app.busqueda == old(app.busqueda) && app.ordenAsc == old(app.ordenAsc)
    ensures old(app.contactoEnEdicion) != Some(contacto) ==>
              f.form == DesdeContacto(contacto) && f.errores == SinErrores
    ensures old(app.contactoEnEdicion) == Some(contacto) ==>
              f.form == old(f.form) && f.errores == old(f.errores)
    ensures f.enviando == old(f.enviando)
  {
    var anterior := app.contactoEnEdicion;
    app.OnEditarClick(contacto);
    if app.contactoEnEdicion != anterior {
      f.Sincronizar(app.contactoEnEdicion);
    }
  }

  /** "Cancelar edición", shown only in edit mode, then the form's effect
      on the target becoming null: create mode, empty draft, no messages. */
  method CancelarDesdeFormulario(app: Agenda, f: Formulario)
    requires app.contactoEnEdicion.Some?
    modifies app, f
    ensures app.contactoEnEdicion == None && app.contactos == old(app.contactos)
    ensures app.error == old(app.error) && app.cargando == old(app.cargando)
    ensures app.busqueda == old(app.busqueda) && app.ordenAsc == old(app.ordenAsc)
    ensures f.form == Vacio && f.errores == SinErrores && f.enviando == old(f.enviando)
  {
    app.OnCancelarEdicion();
    f.Sincronizar(app.contactoEnEdicion);
  }

  /** Clicking "Eliminar" on a card, then the form's effect, which runs only
      when the edit target changes: a successful delete of the contact being
      edited ends edit mode and so empties the draft and its messages; any
      other outcome leaves the form as it was. */
  method EliminarDesdeTarjeta(app: Agenda, f: Formulario, id: Id, respuesta: Respuesta<()>)
    returns (peticion: Peticion)
    modifies app, f
    ensures peticion == EliminarPorId(id)
    ensures app.contactos == (if respuesta.Exito? then Quitar(old(app.contactos), id)
                              else old(app.contactos))
    ensures app.error == (if respuesta.Exito? then "" else ErrorEliminar)
    ensures app.cargando == old(app.cargando) && app.busqueda == old(app.busqueda)
    ensures app.ordenAsc == old(app.ordenAsc)
    ensures var limpia := respuesta.Exito? && old(app.contactoEnEdicion).Some?
                          && old(app.contactoEnEdicion).value.id == id;
            app.contactoEnEdicion == (if limpia then None else old(app.contactoEnEdicion))
            && f.form == (if limpia then Vacio else old(f.form))
            && f.errores == (if limpia then SinErrores else old(f.errores))
    ensures f.enviando == old(f.enviando)
  {
    var anterior := app.contactoEnEdicion;
    peticion := app.OnEliminarContacto(id, respuesta);
    if app.contactoEnEdicion != anterior {
      f.Sincronizar(app.contactoEnEdicion);
    }
  }
}
