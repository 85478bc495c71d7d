/** Worked inputs: a search in capitals, a three-name sort, and a valid and
    an invalid draft, each derived from the general definitions. */
module Ejemplos {
  import opened Modelo
  import opened Texto
  import opened Busqueda
  import opened FormularioContacto

  /** A search for "TRAB" finds a contact tagged "Trabajo". */
  lemma BuscarEtiquetaEnMayusculas()
    ensures Coincide(Contacto("1", "Camila P\U{E9}rez", "3001234567", "cam@sena.edu.co", Some("Trabajo")), "TRAB")
  {
    var c := Contacto("1", "Camila P\U{E9}rez", "3001234567", "cam@sena.edu.co", Some("Trabajo"));
    assert Minusculas("TRAB") == "trab";
    assert Minusculas(EtiquetaTexto(c))[..4] == "trab";
  }

  /** Ascending order by lower-cased name puts "ana" before "Beto" before
      "Carla"; descending is the reverse. */
  lemma OrdenarNombres()
    ensures var beto := Contacto("1", "Beto", "1", "b@x", None);
            var ana := Contacto("2", "ana", "2", "a@x", None);
            var carla := Contacto("3", "Carla", "3", "c@x", None);
            Mostrar([beto, ana, carla], "", true) == [ana, beto, carla]
            && Mostrar([beto, ana, carla], "", false) == [carla, beto, ana]
  {
    var beto := Contacto("1", "Beto", "1", "b@x", None);
    var ana := Contacto("2", "ana", "2", "a@x", None);
    var carla := Contacto("3", "Carla", "3", "c@x", None);
    MostrarSinBusqueda([beto, ana, carla], true);
    MostrarSinBusqueda([beto, ana, carla], false);
    OrdenarTresNombres(beto, ana, carla);
  }

  /** The two sorts of the three-name list, one insertion at a time. */
  lemma OrdenarTresNombres(beto: Contacto, ana: Contacto, carla: Contacto)
    requires beto.nombre == "Beto" && ana.nombre == "ana" && carla.nombre == "Carla"
    ensures Ordenar([beto, ana, carla], true) == [ana, beto, carla]
    ensures Ordenar([beto, ana, carla], false) == [carla, beto, ana]
  {
    var s := [beto, ana, carla];
    assert Clave(beto) == "beto";
    assert Clave(ana) == "ana";
    assert Clave(carla) == "carla";
    assert Menor("ana", "beto") && Menor("ana", "carla") && Menor("beto", "carla");
    assert s[1..] == [ana, carla] && s[1..][1..] == [carla];
    assert Ordenar([carla], true) == [carla] && Ordenar([carla], false) == [carla];
    assert Ordenar([ana, carla], true) == [ana, carla];
    assert Ordenar([ana, carla], false) == [carla, ana];
    assert Insertar(beto, [carla], true) == [beto, carla];
    assert Insertar(beto, [ana, carla], true) == [ana, beto, carla];
    assert [carla, ana][1..] == [ana];
    assert Insertar(beto, [ana], false) == [beto, ana];
    assert Insertar(beto, [carla, ana], false) == [carla, beto, ana];
  }

  /** The draft of the create scenario passes validation. */
  lemma BorradorAnaValido()
    ensures SinFallos(Validar(Campos("Ana", "3001234567", "ana@sena.edu.co", "")))
  {
    var f := Campos("Ana", "3001234567", "ana@sena.edu.co", "");
    assert !TodoEspacio(f.nombre) by { assert !EsEspacio(f.nombre[0]); }
    assert !TodoEspacio(f.telefono) by { assert !EsEspacio(f.telefono[0]); }
    assert !TodoEspacio(f.correo) by { assert !EsEspacio(f.correo[0]); }
    assert f.correo[3] == '@';
  }

  /** A blank name is reported, and so is an e-mail without "@". */
  lemma BorradorIncompleto()
    ensures var e := Validar(Campos(" \t", "3001234567", "ana.sena.edu.co", ""));
            e.nombre == NombreObligatorio && e.telefono == "" && e.correo == CorreoSinArroba
  {
    var f := Campos(" \t", "3001234567", "ana.sena.edu.co", "");
    assert !EsEspacio(f.telefono[0]) && !EsEspacio(f.correo[0]);
  }
}
