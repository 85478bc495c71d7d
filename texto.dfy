/** The string operations the contact book relies on: `toLowerCase`, `trim`,
    `includes` and the relational `<` on strings. */
module Texto {

  /** `toLowerCase` restricted to ASCII letters; every other character is kept. */
  function MinusculaChar(ch: char): char {
    if 'A' <= ch <= 'Z' then (ch as int + 32) as char else ch
  }

  /** The result has the input's length and no upper-case ASCII letter;
      each upper-case letter becomes its lower-case partner (32 code points
      up) and every other character is kept in place, so a string without
      upper-case letters is its own lower-case form. */
  function Minusculas(s: string): (r: string)
    ensures |r| == |s|
    ensures forall i :: 0 <= i < |r| ==> !('A' <= r[i] <= 'Z')
    ensures forall i :: 0 <= i < |s| && !('A' <= s[i] <= 'Z') ==> r[i] == s[i]
    ensures forall i :: 0 <= i < |s| && 'A' <= s[i] <= 'Z' ==> r[i] as int == s[i] as int + 32
    ensures (forall i :: 0 <= i < |s| ==> !('A' <= s[i] <= 'Z')) ==> r == s
  {
    seq(|s|, i requires 0 <= i < |s| => MinusculaChar(s[i]))
  }

  lemma MinusculasIdempotente(s: string)
    ensures Minusculas(Minusculas(s)) == Minusculas(s)
  {
  }

  /** The characters `String.prototype.trim` removes: the ECMAScript
      WhiteSpace code points (TAB, VT, FF, ZWNBSP and every Zs space) and the
      LineTerminator code points (LF, CR, LS, PS). */
  predicate EsEspacio(ch: char) {
    ch == '\t' || ch == '\n' || ch == '\U{B}' || ch == '\U{C}' || ch == '\r'
    || ch == ' ' || ch == '\U{A0}' || ch == '\U{1680}'
    || ('\U{2000}' <= ch <= '\U{200A}')
    || ch == '\U{2028}' || ch == '\U{2029}' || ch == '\U{202F}' || ch == '\U{205F}'
    || ch == '\U{3000}' || ch == '\U{FEFF}'
  }

  predicate TodoEspacio(s: string) {
    forall i :: 0 <= i < |s| ==> EsEspacio(s[i])
  }

  /** Drops leading white space. */
  function RecortarInicio(s: string): string {
    if s != [] && EsEspacio(s[0]) then RecortarInicio(s[1..]) else s
  }

  /** Drops trailing white space. */
  function RecortarFin(s: string): string {
    if s != [] && EsEspacio(s[|s| - 1]) then RecortarFin(s[..|s| - 1]) else s
  }

  /** What `RecortarInicio` drops is a prefix of white space, and what it
      keeps does not start with white space. */
  lemma {:induction false} RecortarInicioSufijo(s: string)
    ensures var r := RecortarInicio(s);
            |r| <= |s| && r == s[|s| - |r|..] && TodoEspacio(s[..|s| - |r|])
            && (r == [] || !EsEspacio(r[0]))
  {
    if s != [] && EsEspacio(s[0]) {
      RecortarInicioSufijo(s[1..]);
      var r := RecortarInicio(s);
      var p := s[..|s| - |r|];
      forall k | 0 <= k < |p| ensures EsEspacio(p[k]) {
        if k > 0 { assert p[k] == s[1..][..|s| - 1 - |r|][k - 1]; }
      }
    }
  }

  /** What `RecortarFin` drops is a suffix of white space, and what it keeps
      does not end with white space. */
  lemma {:induction false} RecortarFinPrefijo(s: string)
    ensures var r := RecortarFin(s);
            |r| <= |s| && r == s[..|r|] && TodoEspacio(s[|r|..])
            && (r == [] || !EsEspacio(r[|r| - 1]))
  {
    if s != [] && EsEspacio(s[|s| - 1]) {
      var t := s[..|s| - 1];
      RecortarFinPrefijo(t);
      var r := RecortarFin(s);
      var q := s[|r|..];
      forall k | 0 <= k < |q| ensures EsEspacio(q[k]) {
        if k < |q| - 1 { assert q[k] == t[|r|..][k]; }
      }
    }
  }

  /** `s.trim()`: no longer than `s`, and neither starting nor ending with
      white space. */
  function Recortar(s: string): (r: string)
    ensures |r| <= |s|
    ensures r == [] || (!EsEspacio(r[0]) && !EsEspacio(r[|r| - 1]))
  {
    RecortarInicioSufijo(s);
    RecortarFinPrefijo(RecortarInicio(s));
    RecortarFin(RecortarInicio(s))
  }

  /** `trim` yields a slice `s[i..j]` with only white space outside it and
      none at either of its ends. */
  lemma RecortarEsRebanada(s: string)
    ensures exists i, j ::
              0 <= i <= j <= |s| && Recortar(s) == s[i..j] && TodoEspacio(s[..i]) && TodoEspacio(s[j..])
  {
    var t := RecortarInicio(s);
    var r := RecortarFin(t);
    var i := |s| - |t|;
    RecortarInicioSufijo(s);
    RecortarFinPrefijo(t);
    assert r == s[i..i + |r|];
    assert s[i + |r|..] == t[|r|..];
  }

  /** `!s.trim()`: the trimmed string is empty, which happens exactly when
      every character is white space. */
  predicate EnBlanco(s: string)
    ensures EnBlanco(s) <==> TodoEspacio(s)
  {
    RecortarVacio(s);
    Recortar(s) == []
  }

  /** A string trims to nothing exactly when every character is white space. */
  lemma RecortarVacio(s: string)
    ensures Recortar(s) == [] <==> TodoEspacio(s)
  {
    RecortarEsRebanada(s);
    var r := Recortar(s);
    var i, j :| 0 <= i <= j <= |s| && r == s[i..j]
                && TodoEspacio(s[..i]) && TodoEspacio(s[j..]);
    if r == [] {
      forall k | 0 <= k < |s| ensures EsEspacio(s[k]) {
        if k < i { assert s[k] == s[..i][k]; } else { assert s[k] == s[j..][k - j]; }
      }
    }
  }

  predicate EmpiezaCon(s: string, p: string) {
    |p| <= |s| && s[..|p|] == p
  }

  /** `s.includes(t)`: every string includes `""`, and no string includes
      a longer one. */
  predicate Contiene(s: string, t: string)
    ensures t == [] ==> Contiene(s, t)
    ensures Contiene(s, t) ==> |t| <= |s|
    decreases |s|
  {
    EmpiezaCon(s, t) || (s != [] && Contiene(s[1..], t))
  }

  /** `t` occurs in `s` starting at position `i`. */
  predicate ApareceEn(s: string, t: string, i: int) {
    0 <= i <= |s| - |t| && s[i..i + |t|] == t
  }

  /** `includes` holds exactly when `t` occurs at some position of `s`. */
  lemma {:induction false} ContieneSiAparece(s: string, t: string)
    ensures Contiene(s, t) <==> exists i :: ApareceEn(s, t, i)
    decreases |s|
  {
    if EmpiezaCon(s, t) {
      assert ApareceEn(s, t, 0);
    }
    if s != [] {
      ContieneSiAparece(s[1..], t);
      if exists i :: ApareceEn(s, t, i) {
        var i :| ApareceEn(s, t, i);
        if i > 0 {
          assert s[1..][i - 1..i - 1 + |t|] == t;
          assert ApareceEn(s[1..], t, i - 1);
        }
      }
      if Contiene(s[1..], t) {
        var i :| ApareceEn(s[1..], t, i);
        assert s[i + 1..i + 1 + |t|] == t;
        assert ApareceEn(s, t, i + 1);
      }
    }
  }

  /** Searching for a one-character string is membership of that character. */
  lemma ContieneCaracter(s: string, ch: char)
    ensures Contiene(s, [ch]) <==> ch in s
  {
    ContieneSiAparece(s, [ch]);
    if ch in s {
      var i :| 0 <= i < |s| && s[i] == ch;
      assert s[i..i + 1] == [ch];
      assert ApareceEn(s, [ch], i);
    }
    if Contiene(s, [ch]) {
      var i :| ApareceEn(s, [ch], i);
      assert s[i] == s[i..i + 1][0];
    }
  }

  /** The relational `a < b` on strings: lexicographic order on characters,
      a proper prefix before its extensions. No string is below itself. */
  predicate Menor(a: string, b: string)
    ensures Menor(a, b) ==> a != b
    ensures |a| < |b| && a == b[..|a|] ==> Menor(a, b)
    decreases |a|
  {
    if a == [] then b != []
    else if b == [] then false
    else a[0] < b[0] || (a[0] == b[0] && Menor(a[1..], b[1..]))
  }

  /** `a <= b` on strings. */
  predicate MenorOIgual(a: string, b: string) {
    Menor(a, b) || a == b
  }

  /** The first position where two strings differ decides their order: the
      string with the smaller character there is below the other. */
  lemma {:induction false} MenorPrimeraDiferencia(a: string, b: string, k: nat)
    requires k < |a| && k < |b| && a[..k] == b[..k] && a[k] < b[k]
    ensures Menor(a, b)
    decreases k
  {
    if k > 0 {
      assert a[0] == a[..k][0] == b[..k][0] == b[0];
      assert a[1..][..k - 1] == a[..k][1..];
      assert b[1..][..k - 1] == b[..k][1..];
      MenorPrimeraDiferencia(a[1..], b[1..], k - 1);
    }
  }

  lemma {:induction false} MenorAsimetrico(a: string, b: string)
    ensures !(Menor(a, b) && Menor(b, a))
    decreases |a|
  {
    if a != [] && b != [] { MenorAsimetrico(a[1..], b[1..]); }
  }

  lemma {:induction false} MenorTransitivo(a: string, b: string, c: string)
    requires Menor(a, b) && Menor(b, c)
    ensures Menor(a, c)
    decreases |a|
  {
    if a != [] && a[0] == b[0] && b[0] == c[0] {
      MenorTransitivo(a[1..], b[1..], c[1..]);
    }
  }

  lemma {:induction false} MenorTotal(a: string, b: string)
    ensures Menor(a, b) || a == b || Menor(b, a)
    decreases |a|
  {
    if a != [] && b != [] && a[0] == b[0] {
      MenorTotal(a[1..], b[1..]);
      if a[1..] == b[1..] {
        assert a == [a[0]] + a[1..] && b == [b[0]] + b[1..];
      }
    }
  }
}
