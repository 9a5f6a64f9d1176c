/** The relevance filter `es_relevante`: a text is relevant when some keyword,
    lower-cased, is a substring of the lower-cased text. */
module Relevancia {
  import opened Texto
  import opened Configuracion

  /** The `any(...)` over the keyword list, in list order: does some
      keyword of `palabras`, lower-cased, occur in `textoLower`? */
  function AlgunaAparece(textoLower: string, palabras: seq<string>): bool
  {
    if palabras == [] then false
    else if Contiene(textoLower, Lower(palabras[0])) then true
    else AlgunaAparece(textoLower, palabras[1..])
  }

  /** `es_relevante(texto)` over the keyword list `palabras`. */
  function EsRelevante(texto: string, palabras: seq<string>): bool
  {
    AlgunaAparece(Lower(texto), palabras)
  }

  /** The keyword search stops at the first keyword found; its verdict is
      "some keyword occurs". */
  lemma {:induction false} AlgunaApareceSiYSoloSi(textoLower: string, palabras: seq<string>)
    ensures AlgunaAparece(textoLower, palabras)
        <==> exists k :: 0 <= k < |palabras| && Occurs(Lower(palabras[k]), textoLower)
  {
    if palabras != [] {
      ContieneSiYSoloSi(textoLower, Lower(palabras[0]));
      AlgunaApareceSiYSoloSi(textoLower, palabras[1..]);
      assert forall k :: 1 <= k < |palabras| ==> palabras[1..][k - 1] == palabras[k];
    }
  }

  /** A text is relevant exactly when some keyword, lower-cased, is a
      substring of the lower-cased text. */
  lemma EsRelevanteSiYSoloSi(texto: string, palabras: seq<string>)
    ensures EsRelevante(texto, palabras)
        <==> exists k :: 0 <= k < |palabras| && Occurs(Lower(palabras[k]), Lower(texto))
  {
    AlgunaApareceSiYSoloSi(Lower(texto), palabras);
  }

  /** The verdict depends only on which keywords are listed, not on their
      order or repetition. */
  lemma EsRelevanteSinOrden(texto: string, a: seq<string>, b: seq<string>)
    requires forall w :: w in a <==> w in b
    ensures EsRelevante(texto, a) == EsRelevante(texto, b)
  {
    EsRelevanteSiYSoloSi(texto, a);
    EsRelevanteSiYSoloSi(texto, b);
    if EsRelevante(texto, a) {
      var k :| 0 <= k < |a| && Occurs(Lower(a[k]), Lower(texto));
      assert a[k] in b;
      var j :| 0 <= j < |b| && b[j] == a[k];
    }
    if EsRelevante(texto, b) {
      var k :| 0 <= k < |b| && Occurs(Lower(b[k]), Lower(texto));
      assert b[k] in a;
      var j :| 0 <= j < |a| && a[j] == b[k];
    }
  }

  /** With non-empty keywords the empty text is not relevant; so a missing
      headline or summary (read as "") drops the candidate. */
  lemma VacioNoEsRelevante(palabras: seq<string>)
    requires PalabrasNoVacias(palabras)
    ensures !EsRelevante("", palabras)
  {
    EsRelevanteSiYSoloSi("", palabras);
    forall k | 0 <= k < |palabras| ensures !Occurs(Lower(palabras[k]), Lower("")) {
      NadaEnVacio(Lower(palabras[k]));
    }
  }

  lemma PalabrasClaveNoVacias()
    ensures PalabrasNoVacias(PALABRAS_CLAVE)
  {
  }

  /** `PALABRAS_CLAVE` rejects the empty text. */
  lemma VacioNoEsRelevanteConfigurado()
    ensures !EsRelevante("", PALABRAS_CLAVE)
  {
    PalabrasClaveNoVacias();
    VacioNoEsRelevante(PALABRAS_CLAVE);
  }

  lemma LowerCharIdempotente(c: char)
    ensures LowerChar(LowerChar(c)) == LowerChar(c)
  {
  }

  /** Lower-casing twice is lower-casing once. */
  lemma LowerIdempotente(s: string)
    ensures Lower(Lower(s)) == Lower(s)
  {
    forall i | 0 <= i < |s| ensures Lower(Lower(s))[i] == Lower(s)[i] {
      LowerCharIdempotente(s[i]);
    }
  }

  /** The filter is case-insensitive: lower-casing the text first changes
      nothing. */
  lemma EsRelevanteIgnoraMayusculas(texto: string, palabras: seq<string>)
    ensures EsRelevante(Lower(texto), palabras) == EsRelevante(texto, palabras)
  {
    EsRelevanteSiYSoloSi(texto, palabras);
    EsRelevanteSiYSoloSi(Lower(texto), palabras);
    LowerIdempotente(texto);
  }

  /** A keyword whose lower-cased characters appear, lower-cased, at
      position `i` of the text, occurs in the lower-cased text. */
  lemma AparecePorCaracteres(palabra: string, texto: string, i: nat)
    requires i + |palabra| <= |texto|
    requires forall j :: 0 <= j < |palabra| ==> LowerChar(texto[i + j]) == LowerChar(palabra[j])
    ensures Occurs(Lower(palabra), Lower(texto))
  {
    assert Lower(texto)[i..i + |palabra|] == Lower(palabra);
    assert OccursAt(Lower(palabra), Lower(texto), i);
  }

  lemma CaracterDeAparicion(p: string, s: string, i: int, k: nat)
    requires 0 <= i && i + |p| <= |s| && k < |p|
    ensures OccursAt(p, s, i) ==> s[i + k] == p[k]
  {
    if OccursAt(p, s, i) {
      assert s[i..i + |p|][k] == s[i + k];
    }
  }

  /** A character other than a lower-case ASCII letter and its capital does
      not lower-case to that letter. */
  lemma LowerCharDistinto(d: char, c: char, mayuscula: char)
    requires 'a' <= c <= 'z' && mayuscula as int == c as int - 32
    requires d != c && d != mayuscula
    ensures LowerChar(d) != LowerChar(c)
  {
  }

  /** A keyword one of whose characters, in either case, is absent from the
      text does not occur in it. */
  lemma AusentePorCaracter(palabra: string, texto: string, k: nat, mayuscula: char)
    requires k < |palabra| && 'a' <= palabra[k] <= 'z' && mayuscula as int == palabra[k] as int - 32
    requires palabra[k] !in texto && mayuscula !in texto
    ensures !Occurs(Lower(palabra), Lower(texto))
  {
    forall i | 0 <= i && i + |palabra| <= |texto| ensures !OccursAt(Lower(palabra), Lower(texto), i) {
      assert texto[i + k] in texto;
      LowerCharDistinto(texto[i + k], palabra[k], mayuscula);
      CaracterDeAparicion(Lower(palabra), Lower(texto), i, k);
    }
  }

  /** The letters `v` and `b`, in either case, are absent from the recipe
      headline of the next example. */
  lemma AusenciasEnReceta(texto: string)
    requires texto == "Receta de cocina"
    ensures 'v' !in texto && 'V' !in texto && 'b' !in texto && 'B' !in texto
  {
  }

  /** A keyword in the middle of a headline, in another case, is found. The
      texts are parameters only to keep the verifier from unfolding the
      search on literal arguments. */
  lemma EjemploRelevante(texto: string, palabras: seq<string>)
    requires texto == "Proyecto vial en Santa Cruz" && palabras == ["vial"]
    ensures EsRelevante(texto, palabras)
  {
    assert texto[9] == 'v' && texto[10] == 'i' && texto[11] == 'a' && texto[12] == 'l';
    AparecePorCaracteres(palabras[0], texto, 9);
    EsRelevanteSiYSoloSi(texto, palabras);
  }

  /** A text containing no keyword is rejected. */
  lemma EjemploNoRelevante(texto: string, palabras: seq<string>)
    requires texto == "Receta de cocina" && palabras == ["vial", "obra"]
    ensures !EsRelevante(texto, palabras)
  {
    AusenciasEnReceta(texto);
    AusentePorCaracter(palabras[0], texto, 0, 'V');
    AusentePorCaracter(palabras[1], texto, 1, 'B');
    EsRelevanteSiYSoloSi(texto, palabras);
  }
}
