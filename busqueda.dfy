/** The display pipeline of the root component: the contacts shown are the
    ones that match the search term, sorted by lower-cased name in the chosen
    direction. */
module Busqueda {
  import opened Modelo
  import opened Texto

  /** `c.etiqueta || ""`: an absent tag searches as the empty string. */
  function EtiquetaTexto(c: Contacto): string {
    c.etiqueta.GetOr("")
  }

  /** The filter callback of `contactosFiltrados`: the lower-cased term
      occurs somewhere in the lower-cased name, e-mail or tag. */
  predicate Coincide(c: Contacto, busqueda: string)
    ensures Coincide(c, busqueda) <==>
              (exists i :: ApareceEn(Minusculas(c.nombre), Minusculas(busqueda), i))
              || (exists i :: ApareceEn(Minusculas(c.correo), Minusculas(busqueda), i))
              || (exists i :: ApareceEn(Minusculas(EtiquetaTexto(c)), Minusculas(busqueda), i))
  {
    var termino := Minusculas(busqueda);
    ContieneSiAparece(Minusculas(c.nombre), termino);
    ContieneSiAparece(Minusculas(c.correo), termino);
    ContieneSiAparece(Minusculas(EtiquetaTexto(c)), termino);
    Contiene(Minusculas(c.nombre), termino)
    || Contiene(Minusculas(c.correo), termino)
    || Contiene(Minusculas(EtiquetaTexto(c)), termino)
  }

  /** `contactos.filter(...)`: a contact is kept exactly when it is stored
      and matches. */
  function Filtrar(cs: seq<Contacto>, busqueda: string): (r: seq<Contacto>)
    ensures |r| <= |cs|
    ensures forall x :: x in r <==> x in cs && Coincide(x, busqueda)
  {
    if cs == [] then []
    else if Coincide(cs[0], busqueda) then [cs[0]] + Filtrar(cs[1..], busqueda)
    else Filtrar(cs[1..], busqueda)
  }

  /** The search is case-insensitive in the term as well as in the fields. */
  lemma CoincideSinMayusculas(c: Contacto, busqueda: string)
    ensures Coincide(c, busqueda) <==> Coincide(c, Minusculas(busqueda))
  {
    MinusculasIdempotente(busqueda);
  }

  /** A contact matches the empty term. */
  lemma CoincideVacio(c: Contacto)
    ensures Coincide(c, "")
  {
  }

  /** With an empty search box every contact is kept, in order. */
  lemma {:induction false} FiltrarVacio(cs: seq<Contacto>)
    ensures Filtrar(cs, "") == cs
  {
    if cs != [] {
      CoincideVacio(cs[0]);
      FiltrarVacio(cs[1..]);
    }
  }

  /** Each matching contact is kept as many times as it occurs; the others
      not at all. */
  lemma {:induction false} FiltrarMultiplicidad(cs: seq<Contacto>, busqueda: string, x: Contacto)
    ensures multiset(Filtrar(cs, busqueda))[x]
            == if Coincide(x, busqueda) then multiset(cs)[x] else 0
  {
    if cs != [] {
      FiltrarMultiplicidad(cs[1..], busqueda, x);
      assert cs == [cs[0]] + cs[1..];
    }
  }

  /** The filtered list keeps the collection's order. */
  lemma {:induction false} FiltrarSubsecuencia(cs: seq<Contacto>, busqueda: string)
    ensures Subsecuencia(Filtrar(cs, busqueda), cs)
  {
    if cs != [] {
      FiltrarSubsecuencia(cs[1..], busqueda);
      var r := Filtrar(cs, busqueda);
      if Coincide(cs[0], busqueda) {
        assert r[1..] == Filtrar(cs[1..], busqueda);
      }
    }
  }

  // ---------------------------------------------------------------------
  // Sorting: `[...contactosFiltrados].sort(comparator)`

  /** The sort key: the lower-cased name. */
  function Clave(c: Contacto): string {
    Minusculas(c.nombre)
  }

  /** The comparator of `contactosOrdenados`. */
  function Comparar(a: Contacto, b: Contacto, ordenAsc: bool): (r: int)
    ensures -1 <= r <= 1
  {
    var nombreA := Clave(a);
    var nombreB := Clave(b);
    if Menor(nombreA, nombreB) then (if ordenAsc then -1 else 1)
    else if Menor(nombreB, nombreA) then (if ordenAsc then 1 else -1)
    else 0
  }

  /** Key `ka` sorts strictly before key `kb` in the chosen direction. */
  predicate Precede(ka: string, kb: string, ordenAsc: bool) {
    if ordenAsc then Menor(ka, kb) else Menor(kb, ka)
  }

  /** The comparator's sign is the strict order on keys; zero means the keys
      are equal. */
  lemma CompararSigno(a: Contacto, b: Contacto, ordenAsc: bool)
    ensures Comparar(a, b, ordenAsc) < 0 <==> Precede(Clave(a), Clave(b), ordenAsc)
    ensures Comparar(a, b, ordenAsc) > 0 <==> Precede(Clave(b), Clave(a), ordenAsc)
    ensures Comparar(a, b, ordenAsc) == 0 <==> Clave(a) == Clave(b)
  {
    MenorAsimetrico(Clave(a), Clave(b));
    MenorTotal(Clave(a), Clave(b));
  }

  /** The comparator is consistent: "not after" is transitive. */
  lemma CompararTransitivo(a: Contacto, b: Contacto, c: Contacto, ordenAsc: bool)
    requires Comparar(a, b, ordenAsc) <= 0 && Comparar(b, c, ordenAsc) <= 0
    ensures Comparar(a, c, ordenAsc) <= 0
  {
    CompararSigno(a, b, ordenAsc);
    CompararSigno(b, c, ordenAsc);
    CompararSigno(a, c, ordenAsc);
    var ka, kb, kc := Clave(a), Clave(b), Clave(c);
    if Precede(kc, ka, ordenAsc) {
      MenorTotal(ka, kb);
      if Precede(ka, kb, ordenAsc) {
        if ordenAsc { MenorTransitivo(kc, ka, kb); } else { MenorTransitivo(kb, ka, kc); }
      }
    }
  }

  /** Adjacent elements are in comparator order. */
  predicate Ordenada(r: seq<Contacto>, ordenAsc: bool) {
    forall i :: 0 <= i < |r| - 1 ==> Comparar(r[i], r[i + 1], ordenAsc) <= 0
  }

  /** The contacts of `s` whose key is `k`, in the order of `s`. */
  function ConClave(s: seq<Contacto>, k: string): (r: seq<Contacto>)
    ensures |r| <= |s|
  {
    if s == [] then []
    else if Clave(s[0]) == k then [s[0]] + ConClave(s[1..], k)
    else ConClave(s[1..], k)
  }

  /** Stability: contacts with equal keys appear in `r` in the order they
      have in `s`. */
  ghost predicate Estable(r: seq<Contacto>, s: seq<Contacto>) {
    forall k :: ConClave(r, k) == ConClave(s, k)
  }

  /** Places `x` before the first element it does not sort after. */
  function Insertar(x: Contacto, t: seq<Contacto>, ordenAsc: bool): (r: seq<Contacto>)
    ensures |r| == |t| + 1
    ensures r[0] == x || (t != [] && r[0] == t[0])
  {
    if t == [] then [x]
    else if Comparar(x, t[0], ordenAsc) <= 0 then [x] + t
    else [t[0]] + Insertar(x, t[1..], ordenAsc)
  }

  /** A stable sort by the comparator (insertion of each element, last
      first, in front of its equals). */
  function Ordenar(s: seq<Contacto>, ordenAsc: bool): (r: seq<Contacto>)
    ensures |r| == |s|
  {
    if s == [] then [] else Insertar(s[0], Ordenar(s[1..], ordenAsc), ordenAsc)
  }

  /** `contactosOrdenados`, the list on screen: exactly the stored contacts
      that match, each as often as the filter keeps it, sorted by name in the
      chosen direction, equal names in stored order. */
  function Mostrar(contactos: seq<Contacto>, busqueda: string, ordenAsc: bool): (r: seq<Contacto>)
    ensures forall x :: x in r <==> x in contactos && Coincide(x, busqueda)
    ensures multiset(r) == multiset(Filtrar(contactos, busqueda))
    ensures Ordenada(r, ordenAsc)
    ensures Estable(r, Filtrar(contactos, busqueda))
  {
    var f := Filtrar(contactos, busqueda);
    OrdenarPermutacion(f, ordenAsc);
    OrdenarOrdenada(f, ordenAsc);
    OrdenarEstable(f, ordenAsc);
    MismosElementos(Ordenar(f, ordenAsc), f);
    Ordenar(f, ordenAsc)
  }

  lemma {:induction false} InsertarMulticonjunto(x: Contacto, t: seq<Contacto>, ordenAsc: bool)
    ensures multiset(Insertar(x, t, ordenAsc)) == multiset(t) + multiset{x}
  {
    if t != [] && Comparar(x, t[0], ordenAsc) > 0 {
      InsertarMulticonjunto(x, t[1..], ordenAsc);
      assert t == [t[0]] + t[1..];
    }
  }

  /** Sorting only reorders: the result is a permutation of its input. */
  lemma {:induction false} OrdenarPermutacion(s: seq<Contacto>, ordenAsc: bool)
    ensures multiset(Ordenar(s, ordenAsc)) == multiset(s)
  {
    if s != [] {
      OrdenarPermutacion(s[1..], ordenAsc);
      InsertarMulticonjunto(s[0], Ordenar(s[1..], ordenAsc), ordenAsc);
      assert s == [s[0]] + s[1..];
    }
  }

  lemma {:induction false} InsertarOrdenada(x: Contacto, t: seq<Contacto>, ordenAsc: bool)
    requires Ordenada(t, ordenAsc)
    ensures Ordenada(Insertar(x, t, ordenAsc), ordenAsc)
  {
    if t != [] && Comparar(x, t[0], ordenAsc) > 0 {
      var t' := t[1..];
      assert Ordenada(t', ordenAsc) by {
        forall i | 0 <= i < |t'| - 1 ensures Comparar(t'[i], t'[i + 1], ordenAsc) <= 0 {
          assert t'[i] == t[i + 1] && t'[i + 1] == t[i + 2];
        }
      }
      InsertarOrdenada(x, t', ordenAsc);
      var u := Insertar(x, t', ordenAsc);
      CompararSigno(x, t[0], ordenAsc);
      CompararSigno(t[0], x, ordenAsc);
      assert Comparar(t[0], u[0], ordenAsc) <= 0;
      var r := [t[0]] + u;
      forall i | 0 <= i < |r| - 1 ensures Comparar(r[i], r[i + 1], ordenAsc) <= 0 {
        if i > 0 { assert r[i] == u[i - 1] && r[i + 1] == u[i]; }
      }
    }
  }

  /** The sorted list is in comparator order. */
  lemma {:induction false} OrdenarOrdenada(s: seq<Contacto>, ordenAsc: bool)
    ensures Ordenada(Ordenar(s, ordenAsc), ordenAsc)
  {
    if s != [] {
      OrdenarOrdenada(s[1..], ordenAsc);
      InsertarOrdenada(s[0], Ordenar(s[1..], ordenAsc), ordenAsc);
    }
  }

  lemma {:induction false} InsertarConClave(x: Contacto, t: seq<Contacto>, ordenAsc: bool, k: string)
    ensures ConClave(Insertar(x, t, ordenAsc), k)
            == if Clave(x) == k then [x] + ConClave(t, k) else ConClave(t, k)
  {
    if t != [] {
      var r := Insertar(x, t, ordenAsc);
      if Comparar(x, t[0], ordenAsc) <= 0 {
        assert r[1..] == t;
      } else {
        CompararSigno(x, t[0], ordenAsc);
        InsertarConClave(x, t[1..], ordenAsc, k);
        assert r[1..] == Insertar(x, t[1..], ordenAsc);
      }
    }
  }

  /** Sorting is stable. */
  lemma {:induction false} OrdenarEstable(s: seq<Contacto>, ordenAsc: bool)
    ensures Estable(Ordenar(s, ordenAsc), s)
  {
    if s != [] {
      OrdenarEstable(s[1..], ordenAsc);
      forall k ensures ConClave(Ordenar(s, ordenAsc), k) == ConClave(s, k) {
        InsertarConClave(s[0], Ordenar(s[1..], ordenAsc), ordenAsc, k);
      }
    }
  }

  /** Adjacent order extends to every pair. */
  lemma {:induction false} OrdenadaPar(r: seq<Contacto>, ordenAsc: bool, i: int, j: int)
    requires Ordenada(r, ordenAsc)
    requires 0 <= i < j < |r|
    ensures Comparar(r[i], r[j], ordenAsc) <= 0
    decreases j - i
  {
    if j > i + 1 {
      OrdenadaPar(r, ordenAsc, i, j - 1);
      CompararTransitivo(r[i], r[j - 1], r[j], ordenAsc);
    }
  }

  /** Ascending: adjacent lower-cased names never decrease. */
  lemma OrdenAscendente(r: seq<Contacto>)
    ensures Ordenada(r, true)
            <==> forall i :: 0 <= i < |r| - 1 ==> MenorOIgual(Clave(r[i]), Clave(r[i + 1]))
  {
    forall i | 0 <= i < |r| - 1
      ensures Comparar(r[i], r[i + 1], true) <= 0 <==> MenorOIgual(Clave(r[i]), Clave(r[i + 1]))
    {
      CompararSigno(r[i], r[i + 1], true);
      MenorTotal(Clave(r[i]), Clave(r[i + 1]));
      MenorAsimetrico(Clave(r[i]), Clave(r[i + 1]));
    }
  }

  /** Descending: adjacent lower-cased names never increase. */
  lemma OrdenDescendente(r: seq<Contacto>)
    ensures Ordenada(r, false)
            <==> forall i :: 0 <= i < |r| - 1 ==> MenorOIgual(Clave(r[i + 1]), Clave(r[i]))
  {
    forall i | 0 <= i < |r| - 1
      ensures Comparar(r[i], r[i + 1], false) <= 0 <==> MenorOIgual(Clave(r[i + 1]), Clave(r[i]))
    {
      CompararSigno(r[i], r[i + 1], false);
      MenorTotal(Clave(r[i]), Clave(r[i + 1]));
      MenorAsimetrico(Clave(r[i]), Clave(r[i + 1]));
    }
  }

  lemma {:induction false} ConClavePertenencia(s: seq<Contacto>, k: string, y: Contacto)
    ensures y in ConClave(s, k) <==> y in s && Clave(y) == k
  {
    if s != [] {
      ConClavePertenencia(s[1..], k, y);
      assert y in s <==> y == s[0] || y in s[1..];
    }
  }

  /** The first key of a sorted list sorts no later than any key in it. */
  lemma PrimeraClave(b: seq<Contacto>, ordenAsc: bool, y: Contacto)
    requires Ordenada(b, ordenAsc) && y in b
    ensures !Precede(Clave(y), Clave(b[0]), ordenAsc)
  {
    var j :| 0 <= j < |b| && b[j] == y;
    if j > 0 { OrdenadaPar(b, ordenAsc, 0, j); }
    CompararSigno(b[0], y, ordenAsc);
  }

  /** Two sorted lists with the same contacts per key, in the same order per
      key, are equal: the comparator and stability determine the result. */
  lemma {:induction false} OrdenUnico(a: seq<Contacto>, b: seq<Contacto>, ordenAsc: bool)
    requires Ordenada(a, ordenAsc) && Ordenada(b, ordenAsc)
    requires Estable(a, b)
    ensures a == b
    decreases |a| + |b|
  {
    if a == [] || b == [] {
      if a != [] { assert ConClave(a, Clave(a[0])) != ConClave(b, Clave(a[0])); }
      if b != [] { assert ConClave(a, Clave(b[0])) != ConClave(b, Clave(b[0])); }
    } else {
      var ka, kb := Clave(a[0]), Clave(b[0]);
      ConClavePertenencia(a, ka, a[0]);
      ConClavePertenencia(b, ka, a[0]);
      var y := ConClave(b, ka)[0];
      ConClavePertenencia(b, ka, y);
      PrimeraClave(b, ordenAsc, y);
      ConClavePertenencia(b, kb, b[0]);
      ConClavePertenencia(a, kb, b[0]);
      var z := ConClave(a, kb)[0];
      ConClavePertenencia(a, kb, z);
      PrimeraClave(a, ordenAsc, z);
      CompararSigno(a[0], b[0], ordenAsc);
      assert ka == kb;
      assert a[0] == b[0];
      var a', b' := a[1..], b[1..];
      forall k ensures ConClave(a', k) == ConClave(b', k) {
        assert ConClave(a, k) == ConClave(b, k);
        if ka == k {
          assert ConClave(a', k) == ConClave(a, k)[1..];
          assert ConClave(b', k) == ConClave(b, k)[1..];
        }
      }
      assert Ordenada(a', ordenAsc) by {
        forall i | 0 <= i < |a'| - 1 ensures Comparar(a'[i], a'[i + 1], ordenAsc) <= 0 {
          assert a'[i] == a[i + 1] && a'[i + 1] == a[i + 2];
        }
      }
      assert Ordenada(b', ordenAsc) by {
        forall i | 0 <= i < |b'| - 1 ensures Comparar(b'[i], b'[i + 1], ordenAsc) <= 0 {
          assert b'[i] == b[i + 1] && b'[i + 1] == b[i + 2];
        }
      }
      OrdenUnico(a', b', ordenAsc);
      assert a == [a[0]] + a' && b == [b[0]] + b';
    }
  }

  /** Two lists with the same multiset hold the same elements. */
  lemma MismosElementos(a: seq<Contacto>, b: seq<Contacto>)
    requires multiset(a) == multiset(b)
    ensures forall x :: x in a <==> x in b
  {
    forall x ensures x in a <==> x in b {
      assert x in a <==> x in multiset(a);
      assert x in b <==> x in multiset(b);
    }
  }

  /** Any stable sort of the filtered list by this comparator gives the list
      on screen, whatever algorithm the engine's `sort` uses. */
  lemma MostrarUnico(contactos: seq<Contacto>, busqueda: string, ordenAsc: bool, r: seq<Contacto>)
    requires Ordenada(r, ordenAsc) && Estable(r, Filtrar(contactos, busqueda))
    ensures r == Mostrar(contactos, busqueda, ordenAsc)
  {
    var f := Filtrar(contactos, busqueda);
    var m := Mostrar(contactos, busqueda, ordenAsc);
    OrdenarOrdenada(f, ordenAsc);
    OrdenarEstable(f, ordenAsc);
    OrdenUnico(r, m, ordenAsc);
  }

  /** An empty search term shows the whole collection, only sorted. */
  lemma MostrarSinBusqueda(contactos: seq<Contacto>, ordenAsc: bool)
    ensures Mostrar(contactos, "", ordenAsc) == Ordenar(contactos, ordenAsc)
  {
  }
}
