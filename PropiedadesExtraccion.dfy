/** What `extraer_fuente` promises about the articles of one source. */
module PropiedadesExtraccion {
  import opened Texto
  import opened Configuracion
  import opened Relevancia
  import opened Extraccion

  /** `a` is a subsequence of `b`: `b` with some elements removed. */
  predicate EsSubsecuencia<T(==)>(a: seq<T>, b: seq<T>)
    decreases |b|
  {
    if a == [] then true
    else if b == [] then false
    else (a[0] == b[0] && EsSubsecuencia(a[1..], b[1..])) || EsSubsecuencia(a, b[1..])
  }

  /** `[g(x) for x in s]`: one field of every record, in order. */
  function Proyectar<A, B>(s: seq<A>, g: A -> B): (r: seq<B>)
    ensures |r| == |s| && forall i :: 0 <= i < |s| ==> r[i] == g(s[i])
  {
    if s == [] then [] else [g(s[0])] + Proyectar(s[1..], g)
  }

  /** The candidates' headlines, in document order. */
  function TitularesCandidatos(items: seq<Candidato>): seq<string>
  {
    Proyectar(items, (c: Candidato) => c.titular)
  }

  /** The articles' headlines, in order. */
  function Titulares(articulos: seq<Articulo>): seq<string>
  {
    Proyectar(articulos, (a: Articulo) => a.titular)
  }

  /** Every article of the candidate loop was emitted by one of the
      candidates. */
  lemma {:induction false} ArticuloProviene(
    f: Fuente, items: seq<Candidato>, palabras: seq<string>, unir: Unir, ahora: int, j: nat)
    requires ExtraerCandidatos(f, items, palabras, unir, ahora).Some?
    requires j < |ExtraerCandidatos(f, items, palabras, unir, ahora).value|
    ensures exists i ::
      && 0 <= i < |items|
      && Procesar(f, items[i], palabras, unir, ahora) == Emitido(ExtraerCandidatos(f, items, palabras, unir, ahora).value[j])
  {
    var r := ExtraerCandidatos(f, items, palabras, unir, ahora).value;
    var resto := ExtraerCandidatos(f, items[1..], palabras, unir, ahora);
    var p := Procesar(f, items[0], palabras, unir, ahora);
    if p.Emitido? && j == 0 {
      assert r[0] == p.articulo;
    } else {
      var k: nat := if p.Emitido? then j - 1 else j;
      assert resto.Some? && k < |resto.value| && r[j] == resto.value[k];
      ArticuloProviene(f, items[1..], palabras, unir, ahora, k);
      var i :| 0 <= i < |items[1..]| && Procesar(f, items[1..][i], palabras, unir, ahora) == Emitido(r[j]);
      assert items[1..][i] == items[i + 1];
    }
  }

  /** The number of candidates that one iteration emits. */
  function CuentaEmitidos(f: Fuente, items: seq<Candidato>, palabras: seq<string>, unir: Unir, ahora: int): nat
    decreases |items|
  {
    if items == [] then 0
    else (if Procesar(f, items[0], palabras, unir, ahora).Emitido? then 1 else 0)
         + CuentaEmitidos(f, items[1..], palabras, unir, ahora)
  }

  /** When nothing raised, the loop yields one article per emitting
      candidate. */
  lemma {:induction false} CuentaCompleta(
    f: Fuente, items: seq<Candidato>, palabras: seq<string>, unir: Unir, ahora: int)
    requires ExtraerCandidatos(f, items, palabras, unir, ahora).Some?
    ensures |ExtraerCandidatos(f, items, palabras, unir, ahora).value| == CuentaEmitidos(f, items, palabras, unir, ahora)
    decreases |items|
  {
    if items != [] {
      CuentaCompleta(f, items[1..], palabras, unir, ahora);
    }
  }

  /** The count over a non-empty prefix, split at its first candidate. */
  lemma CuentaPrefijo(f: Fuente, items: seq<Candidato>, palabras: seq<string>, unir: Unir, ahora: int, i: nat)
    requires 0 < i <= |items|
    ensures CuentaEmitidos(f, items[..i], palabras, unir, ahora)
         == (if Procesar(f, items[0], palabras, unir, ahora).Emitido? then 1 else 0)
            + CuentaEmitidos(f, items[1..][..i - 1], palabras, unir, ahora)
  {
    assert items[..i][0] == items[0] && items[..i][1..] == items[1..][..i - 1];
  }

  /** When nothing raised, the article of every emitting candidate is in the
      result, at the position given by the number of emitting candidates
      before it: the kept candidates appear in document order, and none is
      lost. */
  lemma {:induction false} Completo(
    f: Fuente, items: seq<Candidato>, palabras: seq<string>, unir: Unir, ahora: int, i: nat)
    requires ExtraerCandidatos(f, items, palabras, unir, ahora).Some?
    requires i < |items| && Procesar(f, items[i], palabras, unir, ahora).Emitido?
    ensures CuentaEmitidos(f, items[..i], palabras, unir, ahora) < |ExtraerCandidatos(f, items, palabras, unir, ahora).value|
    ensures ExtraerCandidatos(f, items, palabras, unir, ahora).value[CuentaEmitidos(f, items[..i], palabras, unir, ahora)]
         == Procesar(f, items[i], palabras, unir, ahora).articulo
    decreases |items|
  {
    var r := ExtraerCandidatos(f, items, palabras, unir, ahora).value;
    var resto := ExtraerCandidatos(f, items[1..], palabras, unir, ahora);
    var p := Procesar(f, items[0], palabras, unir, ahora);
    if i == 0 {
      assert items[..0] == [];
      assert r == [p.articulo] + resto.value;
    } else {
      CuentaPrefijo(f, items, palabras, unir, ahora, i);
      assert items[1..][i - 1] == items[i];
      Completo(f, items[1..], palabras, unir, ahora, i - 1);
      if p.Emitido? {
        assert r == [p.articulo] + resto.value;
      } else {
        assert r == resto.value;
      }
    }
  }

  /** Page-level completeness: when none of the first five headline matches
      raised, every one of them that passes both relevance tests is stored
      by the source. */
  lemma CompletoPagina(f: Fuente, candidatos: seq<Candidato>, palabras: seq<string>, unir: Unir, ahora: int, i: nat)
    requires forall k :: 0 <= k < |candidatos| && k < MAX_POR_FUENTE ==> !Procesar(f, candidatos[k], palabras, unir, ahora).Excepcion?
    requires i < |candidatos| && i < MAX_POR_FUENTE && Procesar(f, candidatos[i], palabras, unir, ahora).Emitido?
    ensures Procesar(f, candidatos[i], palabras, unir, ahora).articulo in ExtraerPagina(f, Analizada(candidatos), palabras, unir, ahora)
  {
    var items := Primeros(candidatos);
    assert forall k :: 0 <= k < |items| ==> items[k] == candidatos[k];
    ExcepcionAnula(f, items, palabras, unir, ahora);
    Completo(f, items, palabras, unir, ahora, i);
  }

  /** Every article of a source carries the source's name and the run's
      timestamp, and comes from one of the first five headline matches whose
      headline and summary are both relevant: its headline is that match's
      text, its summary that match's summary, truncated, and its image URL and
      link that match's attributes resolved against the listing URL. */
  lemma ArticulosDePagina(f: Fuente, pagina: Pagina, palabras: seq<string>, unir: Unir, ahora: int)
    ensures var r := ExtraerPagina(f, pagina, palabras, unir, ahora);
      forall a :: a in r ==>
        && a.fuente == f.nombre
        && a.fechaPublicacion == ahora
        && |a.resumen| <= LARGO_RESUMEN + |ELIPSIS|
        && EsRelevante(a.titular, palabras)
        && exists i :: 0 <= i < |pagina.candidatos| && i < MAX_POR_FUENTE
             && pagina.candidatos[i].titular == a.titular
             && EsRelevante(TextoResumen(pagina.candidatos[i]), palabras)
             && a.resumen == Truncar(TextoResumen(pagina.candidatos[i]))
             && Some(a.urlImagen) == ResolverUrl(f.url, pagina.candidatos[i].imagenSrc, unir)
             && Some(a.enlace) == ResolverUrl(f.url, pagina.candidatos[i].enlaceHref, unir)
  {
    var r := ExtraerPagina(f, pagina, palabras, unir, ahora);
    forall a | a in r
      ensures
        && a.fuente == f.nombre
        && a.fechaPublicacion == ahora
        && |a.resumen| <= LARGO_RESUMEN + |ELIPSIS|
        && EsRelevante(a.titular, palabras)
        && exists i :: 0 <= i < |pagina.candidatos| && i < MAX_POR_FUENTE
             && pagina.candidatos[i].titular == a.titular
             && EsRelevante(TextoResumen(pagina.candidatos[i]), palabras)
             && a.resumen == Truncar(TextoResumen(pagina.candidatos[i]))
             && Some(a.urlImagen) == ResolverUrl(f.url, pagina.candidatos[i].imagenSrc, unir)
             && Some(a.enlace) == ResolverUrl(f.url, pagina.candidatos[i].enlaceHref, unir)
    {
      var items := Primeros(pagina.candidatos);
      var j :| 0 <= j < |r| && r[j] == a;
      ArticuloProviene(f, items, palabras, unir, ahora, j);
      var i :| 0 <= i < |items| && Procesar(f, items[i], palabras, unir, ahora) == Emitido(a);
      assert items[i] == pagina.candidatos[i];
    }
  }

  /** With non-empty keywords no stored article has an empty headline or an
      empty summary. */
  lemma ArticulosNoVacios(f: Fuente, pagina: Pagina, palabras: seq<string>, unir: Unir, ahora: int)
    requires PalabrasNoVacias(palabras)
    ensures forall a :: a in ExtraerPagina(f, pagina, palabras, unir, ahora) ==> a.titular != "" && a.resumen != ""
  {
    ArticulosDePagina(f, pagina, palabras, unir, ahora);
    VacioNoEsRelevante(palabras);
  }

  /** The emitted headlines are a subsequence, in document order, of the
      candidates' headlines. */
  lemma {:induction false} TitularesEnOrdenCandidatos(
    f: Fuente, items: seq<Candidato>, palabras: seq<string>, unir: Unir, ahora: int)
    requires ExtraerCandidatos(f, items, palabras, unir, ahora).Some?
    ensures EsSubsecuencia(Titulares(ExtraerCandidatos(f, items, palabras, unir, ahora).value), TitularesCandidatos(items))
  {
    if items != [] {
      var r := ExtraerCandidatos(f, items, palabras, unir, ahora).value;
      var resto := ExtraerCandidatos(f, items[1..], palabras, unir, ahora);
      assert TitularesCandidatos(items)[1..] == TitularesCandidatos(items[1..]);
      match Procesar(f, items[0], palabras, unir, ahora)
      case Descartado =>
        TitularesEnOrdenCandidatos(f, items[1..], palabras, unir, ahora);
      case Emitido(a) =>
        TitularesEnOrdenCandidatos(f, items[1..], palabras, unir, ahora);
        assert r == [a] + resto.value;
        assert Titulares(r)[1..] == Titulares(resto.value);
    }
  }

  /** One source's headlines form a subsequence of its first five headline
      matches. */
  lemma TitularesEnOrden(f: Fuente, candidatos: seq<Candidato>, palabras: seq<string>, unir: Unir, ahora: int)
    ensures EsSubsecuencia(Titulares(ExtraerPagina(f, Analizada(candidatos), palabras, unir, ahora)),
                           TitularesCandidatos(Primeros(candidatos)))
  {
    if ExtraerCandidatos(f, Primeros(candidatos), palabras, unir, ahora).Some? {
      TitularesEnOrdenCandidatos(f, Primeros(candidatos), palabras, unir, ahora);
    }
  }

  /** The whole source yields nothing exactly when one of the considered
      candidates raised. */
  lemma {:induction false} ExcepcionAnula(
    f: Fuente, items: seq<Candidato>, palabras: seq<string>, unir: Unir, ahora: int)
    ensures ExtraerCandidatos(f, items, palabras, unir, ahora).None?
        <==> exists i :: 0 <= i < |items| && Procesar(f, items[i], palabras, unir, ahora).Excepcion?
  {
    if items != [] {
      ExcepcionAnula(f, items[1..], palabras, unir, ahora);
      forall i | 0 <= i < |items| - 1 ensures items[1..][i] == items[i + 1] { }
      if exists i :: 1 <= i < |items| && Procesar(f, items[i], palabras, unir, ahora).Excepcion? {
        var i :| 1 <= i < |items| && Procesar(f, items[i], palabras, unir, ahora).Excepcion?;
        assert Procesar(f, items[1..][i - 1], palabras, unir, ahora).Excepcion?;
      }
    }
  }

  /** A source one of whose first five headline matches raises yields no
      article at all: the handler around the whole loop returns `[]`. */
  lemma PaginaQueLanza(f: Fuente, candidatos: seq<Candidato>, palabras: seq<string>, unir: Unir, ahora: int, i: nat)
    requires i < |candidatos| && i < MAX_POR_FUENTE
    requires Procesar(f, candidatos[i], palabras, unir, ahora).Excepcion?
    ensures ExtraerPagina(f, Analizada(candidatos), palabras, unir, ahora) == []
  {
    var items := Primeros(candidatos);
    assert items[i] == candidatos[i];
    ExcepcionAnula(f, items, palabras, unir, ahora);
  }

  /** An empty headline drops the candidate under the configured keywords. */
  lemma TitularVacioDescarta(f: Fuente, c: Candidato, unir: Unir, ahora: int)
    requires c.titular == ""
    ensures Procesar(f, c, PALABRAS_CLAVE, unir, ahora) == Descartado
  {
    VacioNoEsRelevanteConfigurado();
  }

  /** A missing or empty summary drops the candidate under the configured
      keywords. */
  lemma ResumenVacioDescarta(f: Fuente, c: Candidato, unir: Unir, ahora: int)
    requires c.resumen.None? || c.resumen == Some("")
    ensures Procesar(f, c, PALABRAS_CLAVE, unir, ahora) == Descartado
  {
    VacioNoEsRelevanteConfigurado();
  }

  /** A missing link is not a drop: a relevant candidate whose image resolves
      is emitted with the link `""`. */
  lemma SinEnlaceSeEmite(f: Fuente, c: Candidato, palabras: seq<string>, unir: Unir, ahora: int)
    requires EsRelevante(c.titular, palabras) && EsRelevante(TextoResumen(c), palabras)
    requires c.enlaceHref.None?
    requires ResolverUrl(f.url, c.imagenSrc, unir).Some?
    ensures Procesar(f, c, palabras, unir, ahora)
         == Emitido(Articulo(c.titular, Truncar(TextoResumen(c)), ResolverUrl(f.url, c.imagenSrc, unir).value, "", f.nombre, ahora))
  {
  }

  /** Headline matches after the fifth never influence the result. */
  lemma MasAllaDelQuinto(f: Fuente, candidatos: seq<Candidato>, extra: seq<Candidato>,
                         palabras: seq<string>, unir: Unir, ahora: int)
    requires |candidatos| >= MAX_POR_FUENTE
    ensures ExtraerPagina(f, Analizada(candidatos + extra), palabras, unir, ahora)
         == ExtraerPagina(f, Analizada(candidatos), palabras, unir, ahora)
  {
    assert Primeros(candidatos + extra) == Primeros(candidatos);
  }

  /** The links of a sequence of articles, in order. */
  function Enlaces(articulos: seq<Articulo>): seq<string>
  {
    Proyectar(articulos, (a: Articulo) => a.enlace)
  }

  lemma {:induction false} EnlacesConcatena(a: seq<Articulo>, b: seq<Articulo>)
    ensures Enlaces(a + b) == Enlaces(a) + Enlaces(b)
  {
    assert |Enlaces(a + b)| == |Enlaces(a) + Enlaces(b)|;
    forall i | 0 <= i < |a + b| ensures Enlaces(a + b)[i] == (Enlaces(a) + Enlaces(b))[i] {
      if i < |a| {
        assert (a + b)[i] == a[i];
      } else {
        assert (a + b)[i] == b[i - |a|];
      }
    }
  }

  /** The clock does not influence which candidates are kept or which links
      they get: two extractions at different times differ only in the
      timestamps. */
  lemma {:induction false} EnlacesSinReloj(
    f: Fuente, items: seq<Candidato>, palabras: seq<string>, unir: Unir, t1: int, t2: int)
    ensures ExtraerCandidatos(f, items, palabras, unir, t1).Some? == ExtraerCandidatos(f, items, palabras, unir, t2).Some?
    ensures ExtraerCandidatos(f, items, palabras, unir, t1).Some? ==>
      Enlaces(ExtraerCandidatos(f, items, palabras, unir, t1).value)
        == Enlaces(ExtraerCandidatos(f, items, palabras, unir, t2).value)
  {
    if items != [] {
      EnlacesSinReloj(f, items[1..], palabras, unir, t1, t2);
      var p1 := Procesar(f, items[0], palabras, unir, t1);
      var p2 := Procesar(f, items[0], palabras, unir, t2);
      assert p1.Emitido? == p2.Emitido? && p1.Excepcion? == p2.Excepcion?;
      var r1 := ExtraerCandidatos(f, items[1..], palabras, unir, t1);
      var r2 := ExtraerCandidatos(f, items[1..], palabras, unir, t2);
      if p1.Emitido? && r1.Some? {
        assert p1.articulo.enlace == p2.articulo.enlace;
        assert Enlaces([p1.articulo] + r1.value)[1..] == Enlaces(r1.value);
        assert Enlaces([p2.articulo] + r2.value)[1..] == Enlaces(r2.value);
      }
    }
  }

  /** Page-level form of `EnlacesSinReloj`. */
  lemma EnlacesPaginaSinReloj(f: Fuente, pagina: Pagina, palabras: seq<string>, unir: Unir, t1: int, t2: int)
    ensures Enlaces(ExtraerPagina(f, pagina, palabras, unir, t1)) == Enlaces(ExtraerPagina(f, pagina, palabras, unir, t2))
  {
    if pagina.Analizada? {
      EnlacesSinReloj(f, Primeros(pagina.candidatos), palabras, unir, t1, t2);
    }
  }
}
