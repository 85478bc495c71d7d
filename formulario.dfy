/** The contact form: a draft of four fields, the per-field validation
    messages, and the `enviando` flag around the awaited save callback. */
module FormularioContacto {
  import opened Modelo
  import opened Texto

  /** The draft, `form`. */
  datatype Campos = Campos(nombre: string, telefono: string, correo: string, etiqueta: string)

  /** The validation messages, `errores`; `""` means no error. */
  datatype Errores = Errores(nombre: string, telefono: string, correo: string)

  /** The `name` attribute of an input. */
  datatype Campo = Nombre | Telefono | Correo | Etiqueta

  /** What the form hands to the component above it on a valid submit:
      `onAgregar(form)` or `onActualizar({ ...form, id })`. */
  datatype Envio = Agregar(campos: Campos) | Actualizar(campos: Campos, id: Id)

  const Vacio := Campos("", "", "", "")
  const SinErrores := Errores("", "", "")

  const NombreObligatorio := "El nombre es obligatorio."
  const TelefonoObligatorio := "El tel\U{E9}fono es obligatorio."
  const CorreoObligatorio := "El correo es obligatorio."
  const CorreoSinArroba := "El correo debe contener @."

  function Valor(f: Campos, campo: Campo): string {
    match campo
    case Nombre => f.nombre
    case Telefono => f.telefono
    case Correo => f.correo
    case Etiqueta => f.etiqueta
  }

  /** `{ ...prevForm, [name]: value }`: the named field takes the value, the
      others keep theirs. */
  function Cambiar(f: Campos, campo: Campo, valor: string): (r: Campos)
    ensures Valor(r, campo) == valor
    ensures forall otro :: otro != campo ==> Valor(r, otro) == Valor(f, otro)
  {
    match campo
    case Nombre => f.(nombre := valor)
    case Telefono => f.(telefono := valor)
    case Correo => f.(correo := valor)
    case Etiqueta => f.(etiqueta := valor)
  }

  /** The draft an edit target is mirrored into: `contactoEnEdicion.x || ""`. */
  function DesdeContacto(c: Contacto): (r: Campos)
    ensures r.nombre == c.nombre && r.telefono == c.telefono && r.correo == c.correo
    ensures c.etiqueta.Some? ==> r.etiqueta == c.etiqueta.value
    ensures c.etiqueta.None? ==> r.etiqueta == ""
  {
    Campos(c.nombre, c.telefono, c.correo, c.etiqueta.GetOr(""))
  }

  /** The messages `validarFormulario` computes for a draft: name and phone
      have a message exactly when blank; the e-mail is "required" when
      blank, else "must contain @" when it has none, else fine. */
  function Validar(f: Campos): (e: Errores)
    ensures e.nombre != "" <==> EnBlanco(f.nombre)
    ensures e.telefono != "" <==> EnBlanco(f.telefono)
    ensures EnBlanco(f.correo) ==> e.correo == CorreoObligatorio
    ensures !EnBlanco(f.correo) && '@' !in f.correo ==> e.correo == CorreoSinArroba
    ensures !EnBlanco(f.correo) && '@' in f.correo ==> e.correo == ""
  {
    ContieneCaracter(f.correo, '@');
    Errores(
      if EnBlanco(f.nombre) then NombreObligatorio else "",
      if EnBlanco(f.telefono) then TelefonoObligatorio else "",
      if EnBlanco(f.correo) then CorreoObligatorio
      else if !Contiene(f.correo, "@") then CorreoSinArroba
      else "")
  }

  /** The verdict: no message is set. */
  predicate SinFallos(e: Errores) {
    e.nombre == "" && e.telefono == "" && e.correo == ""
  }

  /** A draft passes exactly when name, phone and e-mail each hold a
      character that is not white space and the e-mail holds an `@`. */
  lemma ValidarSiCompleto(f: Campos)
    ensures SinFallos(Validar(f))
            <==> !TodoEspacio(f.nombre) && !TodoEspacio(f.telefono)
                 && !TodoEspacio(f.correo) && '@' in f.correo
  {
  }

  /** The tag is never validated. */
  lemma ValidarIgnoraEtiqueta(f: Campos, etiqueta: string)
    ensures Validar(f.(etiqueta := etiqueta)) == Validar(f)
  {
  }

  /** The form component's state. The save callbacks and `onCancelarEdicion`
      belong to the component above; their effect is an input here. */
  class Formulario {
    var form: Campos
    var errores: Errores
    var enviando: bool

    constructor ()
      ensures form == Vacio && errores == SinErrores && !enviando
    {
      form := Vacio;
      errores := SinErrores;
      enviando := false;
    }

    /** The effect on `contactoEnEdicion`: a target is copied into the draft,
        no target empties it; either way the messages are cleared. */
    method Sincronizar(contactoEnEdicion: Option<Contacto>)
      modifies this
      ensures form == (match contactoEnEdicion
                       case Some(c) => DesdeContacto(c)
                       case None => Vacio)
      ensures errores == SinErrores
      ensures enviando == old(enviando)
    {
      if contactoEnEdicion.Some? {
        form := DesdeContacto(contactoEnEdicion.value);
        errores := SinErrores;
      } else {
        form := Vacio;
        errores := SinErrores;
      }
    }

    /** One keystroke: only the named field of the draft changes. */
    method OnChange(name: Campo, value: string)
      modifies this
      ensures form == Cambiar(old(form), name, value)
      ensures errores == old(errores) && enviando == old(enviando)
    {
      form := Cambiar(form, name, value);
    }

    /** `validarFormulario`: builds the messages field by field, stores them,
        and answers whether none is set. */
    method ValidarFormulario() returns (esValido: bool)
      modifies this
      ensures errores == Validar(form)
      ensures esValido <==> SinFallos(errores)
      ensures form == old(form) && enviando == old(enviando)
    {
      var f := form;
      var nuevosErrores := SinErrores;
      if EnBlanco(f.nombre) {
        nuevosErrores := nuevosErrores.(nombre := NombreObligatorio);
      }
      if EnBlanco(f.telefono) {
        nuevosErrores := nuevosErrores.(telefono := TelefonoObligatorio);
      }
      if EnBlanco(f.correo) {
        nuevosErrores := nuevosErrores.(correo := CorreoObligatorio);
      } else if !Contiene(f.correo, "@") {
        nuevosErrores := nuevosErrores.(correo := CorreoSinArroba);
      }
      errores := nuevosErrores;
      esValido := nuevosErrores.nombre == "" && nuevosErrores.telefono == ""
                  && nuevosErrores.correo == "";
    }

    /** `onSubmit` up to the awaited callback. An invalid draft stops here
        with nothing sent and `enviando` untouched; a valid one sets
        `enviando` and yields what the callback receives. */
    method IniciarEnvio(contactoEnEdicion: Option<Contacto>) returns (envio: Option<Envio>)
      modifies this
      ensures form == old(form) && errores == Validar(form)
      ensures envio.None? <==> !SinFallos(errores)
      ensures envio.None? ==> enviando == old(enviando)
      ensures envio.Some? ==> enviando
      ensures envio.Some? ==> envio.value == (match contactoEnEdicion
                                              case Some(c) => Actualizar(form, c.id)
                                              case None => Agregar(form))
    {
      var esValido := ValidarFormulario();
      if !esValido {
        return None;
      }
      enviando := true;
      match contactoEnEdicion
      case Some(c) => envio := Some(Actualizar(form, c.id));
      case None => envio := Some(Agregar(form));
    }

    /** `onSubmit` after the callback settles: the draft and messages are
        reset only if it did not throw; `finally` clears `enviando`. */
    method ConcluirEnvio(exito: bool)
      modifies this
      ensures form == (if exito then Vacio else old(form))
      ensures errores == (if exito then SinErrores else old(errores))
      ensures !enviando
    {
      if exito {
        form := Vacio;
        errores := SinErrores;
      }
      enviando := false;
    }

    /** The whole `onSubmit`, with the callback's outcome as an input:
        `callbackLanza` says whether the awaited save threw. Returns what was
        sent, whether `onCancelarEdicion` was called, and whether the
        exception propagates out of the handler. */
    method OnSubmit(contactoEnEdicion: Option<Contacto>, callbackLanza: bool)
      returns (envio: Option<Envio>, cancela: bool, lanza: bool)
      modifies this
      ensures errores == (if envio.Some? && !lanza then SinErrores else Validar(old(form)))
      ensures envio.None? <==> !SinFallos(Validar(old(form)))
      ensures envio.None? ==> form == old(form) && enviando == old(enviando) && !cancela && !lanza
      ensures envio.Some? ==> !enviando && lanza == callbackLanza
      ensures envio.Some? ==> envio.value == (match contactoEnEdicion
                                              case Some(c) => Actualizar(old(form), c.id)
                                              case None => Agregar(old(form)))
      ensures envio.Some? ==> form == (if lanza then old(form) else Vacio)
      ensures cancela <==> envio.Some? && envio.value.Actualizar? && !lanza
    {
      cancela, lanza := false, false;
      envio := IniciarEnvio(contactoEnEdicion);
      if envio.None? {
        return;
      }
      ConcluirEnvio(!callbackLanza);
      lanza := callbackLanza;
      cancela := envio.value.Actualizar? && !callbackLanza;
    }
  }
}
