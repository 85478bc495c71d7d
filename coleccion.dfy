/** The list updates the root component applies to `contactos` after a
    backend call succeeds. */
module Coleccion {
  import opened Modelo

  /** `prev.map((c) => (c.id === actualizado.id ? actualizado : c))`. */
  function Reemplazar(cs: seq<Contacto>, actualizado: Contacto): (r: seq<Contacto>)
    ensures |r| == |cs|
    ensures forall i :: 0 <= i < |cs| ==>
              r[i] == if cs[i].id == actualizado.id then actualizado else cs[i]
  {
    if cs == [] then []
    else [if cs[0].id == actualizado.id then actualizado else cs[0]]
         + Reemplazar(cs[1..], actualizado)
  }

  /** `prev.filter((c) => c.id !== id)`: a contact survives exactly when it
      is stored and its id is not the deleted one. */
  function Quitar(cs: seq<Contacto>, id: Id): (r: seq<Contacto>)
    ensures |r| <= |cs|
    ensures forall x :: x in r <==> x in cs && x.id != id
  {
    if cs == [] then []
    else if cs[0].id != id then [cs[0]] + Quitar(cs[1..], id)
    else Quitar(cs[1..], id)
  }

  /** Replacing by id leaves every id where it was. */
  lemma ReemplazarConservaIds(cs: seq<Contacto>, actualizado: Contacto)
    ensures Ids(Reemplazar(cs, actualizado)) == Ids(cs)
    ensures IdsUnicos(cs) ==> IdsUnicos(Reemplazar(cs, actualizado))
  {
  }

  /** Saving the same record twice gives the same collection as saving it once. */
  lemma ReemplazarIdempotente(cs: seq<Contacto>, actualizado: Contacto)
    ensures Reemplazar(Reemplazar(cs, actualizado), actualizado) == Reemplazar(cs, actualizado)
  {
  }

  /** When no stored contact has the returned id, nothing changes. */
  lemma ReemplazarAusente(cs: seq<Contacto>, actualizado: Contacto)
    requires actualizado.id !in Ids(cs)
    ensures Reemplazar(cs, actualizado) == cs
  {
    forall i | 0 <= i < |cs| ensures cs[i].id != actualizado.id {
      assert Ids(cs)[i] == cs[i].id;
    }
  }

  /** With unique ids, replacing by id is an update in place of one position. */
  lemma ReemplazarEnPosicion(cs: seq<Contacto>, actualizado: Contacto, i: int)
    requires IdsUnicos(cs) && 0 <= i < |cs| && cs[i].id == actualizado.id
    ensures Reemplazar(cs, actualizado) == cs[i := actualizado]
  {
  }

  /** Every contact with another id is kept as many times as it is stored. */
  lemma {:induction false} QuitarMultiplicidad(cs: seq<Contacto>, id: Id, x: Contacto)
    ensures multiset(Quitar(cs, id))[x] == if x.id != id then multiset(cs)[x] else 0
  {
    if cs != [] {
      QuitarMultiplicidad(cs[1..], id, x);
      assert cs == [cs[0]] + cs[1..];
    }
  }

  /** The survivors keep their order. */
  lemma {:induction false} QuitarSubsecuencia(cs: seq<Contacto>, id: Id)
    ensures Subsecuencia(Quitar(cs, id), cs)
  {
    if cs != [] {
      QuitarSubsecuencia(cs[1..], id);
      var r := Quitar(cs, id);
      if cs[0].id != id {
        assert r[1..] == Quitar(cs[1..], id);
      }
    }
  }

  /** The tail of a collection with unique ids has unique ids. */
  lemma ColaUnica(cs: seq<Contacto>)
    requires cs != [] && IdsUnicos(cs)
    ensures IdsUnicos(cs[1..])
  {
    var t := cs[1..];
    forall i, j | 0 <= i < j < |t| ensures t[i].id != t[j].id {
      assert t[i] == cs[i + 1] && t[j] == cs[j + 1];
    }
  }

  /** Putting a contact in front of a list with unique ids, none of them its
      own, keeps ids unique. */
  lemma AnteponerUnico(c: Contacto, q: seq<Contacto>)
    requires IdsUnicos(q) && forall x :: x in q ==> x.id != c.id
    ensures IdsUnicos([c] + q)
  {
    var r := [c] + q;
    forall i, j | 0 <= i < j < |r| ensures r[i].id != r[j].id {
      if i == 0 {
        assert r[j] in q;
      } else {
        assert r[i] == q[i - 1] && r[j] == q[j - 1];
      }
    }
  }

  /** Deleting keeps ids unique; with unique ids it removes exactly one
      contact when the id is stored, and none otherwise. */
  lemma {:induction false} QuitarUnico(cs: seq<Contacto>, id: Id)
    requires IdsUnicos(cs)
    ensures IdsUnicos(Quitar(cs, id))
    ensures |Quitar(cs, id)| == if id in Ids(cs) then |cs| - 1 else |cs|
  {
    if cs != [] {
      var t := cs[1..];
      ColaUnica(cs);
      QuitarUnico(t, id);
      assert Ids(cs) == [cs[0].id] + Ids(t);
      if cs[0].id != id {
        forall x | x in Quitar(t, id) ensures x.id != cs[0].id {
          var k :| 0 <= k < |t| && t[k] == x;
          assert cs[k + 1] == x;
        }
        AnteponerUnico(cs[0], Quitar(t, id));
      } else {
        assert id !in Ids(t) by {
          forall k | 0 <= k < |t| ensures Ids(t)[k] != id {
            assert t[k] == cs[k + 1];
          }
        }
      }
    }
  }

  /** Appending keeps ids unique exactly when the new id is not stored yet. */
  lemma AgregarUnico(cs: seq<Contacto>, creado: Contacto)
    requires IdsUnicos(cs)
    ensures IdsUnicos(cs + [creado]) <==> creado.id !in Ids(cs)
  {
    var r := cs + [creado];
    if creado.id in Ids(cs) {
      var k :| 0 <= k < |cs| && Ids(cs)[k] == creado.id;
      assert r[k].id == r[|cs|].id;
    } else {
      forall i | 0 <= i < |cs| ensures cs[i].id != creado.id {
        assert Ids(cs)[i] == cs[i].id;
      }
    }
  }
}
