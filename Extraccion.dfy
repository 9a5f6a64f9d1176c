/** The per-source candidate pipeline `extraer_fuente`. HTML parsing is
    abstracted: a parsed listing page is the sequence of candidate records the
    headline selector yields, in document order, each carrying what the
    summary, image and link selectors find inside its container. */
module Extraccion {
  import opened Texto
  import opened Configuracion
  import opened Relevancia

  /** At most this many headline matches per source are looked at. */
  const MAX_POR_FUENTE: nat := 5
  /** Summaries longer than this are cut to this length ... */
  const LARGO_RESUMEN: nat := 200
  /** ... and get this marker appended. */
  const ELIPSIS: string := "..."

  /** One headline match: its stripped text, the stripped text of the first
      summary match (None when nothing matched), the `src` attribute of the
      first image match and the `href` of the first link match (None when no
      element matched or it has no such attribute). */
  datatype Candidato = Candidato(
    titular: string,
    resumen: Option<string>,
    imagenSrc: Option<string>,
    enlaceHref: Option<string>)

  /** The outcome of fetching and parsing one listing page: a failed request
      (network error, timeout, status of 400 or more) or the candidates found. */
  datatype Pagina = Fallida | Analizada(candidatos: seq<Candidato>)

  /** The row built for one accepted candidate. */
  datatype Articulo = Articulo(
    titular: string,
    resumen: string,
    urlImagen: string,
    enlace: string,
    fuente: string,
    fechaPublicacion: int)

  /** `urljoin(base, ref)`: None stands for the call raising (a malformed
      URL), which aborts the whole source. */
  type Unir = (string, string) -> Option<string>

  /** What `extraer_fuente` does with one candidate. */
  datatype Paso = Emitido(articulo: Articulo) | Descartado | Excepcion

  /** The summary text, `""` when the summary selector matched nothing. */
  function TextoResumen(c: Candidato): string
  {
    if c.resumen.Some? then c.resumen.value else ""
  }

  /** The stored summary: cut to 200 characters plus "..." when longer than
      200, unchanged otherwise. */
  function Truncar(resumen: string): (r: string)
    ensures |r| <= LARGO_RESUMEN + |ELIPSIS|
    ensures |resumen| > LARGO_RESUMEN ==>
      |r| == LARGO_RESUMEN + |ELIPSIS| && r[..LARGO_RESUMEN] == resumen[..LARGO_RESUMEN] && r[LARGO_RESUMEN..] == ELIPSIS
    ensures |resumen| <= LARGO_RESUMEN ==> r == resumen
  {
    if |resumen| > LARGO_RESUMEN then resumen[..LARGO_RESUMEN] + ELIPSIS else resumen
  }

  /** An attribute resolved against the listing URL: `""` when the element or
      its attribute is missing or empty, else `urljoin(base, atributo)`. */
  function ResolverUrl(base: string, atributo: Option<string>, unir: Unir): Option<string>
  {
    if atributo.Some? && atributo.value != "" then unir(base, atributo.value) else Some("")
  }

  /** One iteration of the loop over candidates: the headline filter, the
      summary filter, then the image and link resolution that may raise. */
  function Procesar(f: Fuente, c: Candidato, palabras: seq<string>, unir: Unir, ahora: int): (r: Paso)
    ensures r.Descartado? <==> !EsRelevante(c.titular, palabras) || !EsRelevante(TextoResumen(c), palabras)
    ensures r.Excepcion? <==>
      && EsRelevante(c.titular, palabras) && EsRelevante(TextoResumen(c), palabras)
      && (ResolverUrl(f.url, c.imagenSrc, unir).None? || ResolverUrl(f.url, c.enlaceHref, unir).None?)
  {
    if !EsRelevante(c.titular, palabras) then Descartado
    else
      var resumen := TextoResumen(c);
      if !EsRelevante(resumen, palabras) then Descartado
      else
        var urlImagen := ResolverUrl(f.url, c.imagenSrc, unir);
        var enlace := ResolverUrl(f.url, c.enlaceHref, unir);
        if urlImagen.None? || enlace.None? then Excepcion
        else Emitido(Articulo(c.titular, Truncar(resumen), urlImagen.value, enlace.value, f.nombre, ahora))
  }

  /** The row of an emitted candidate: its headline, its summary truncated,
      its image URL and link resolved against the listing URL, the source's
      name and the timestamp. */
  lemma ProcesarEmitido(f: Fuente, c: Candidato, palabras: seq<string>, unir: Unir, ahora: int)
    requires Procesar(f, c, palabras, unir, ahora).Emitido?
    ensures var a := Procesar(f, c, palabras, unir, ahora).articulo;
      && a.titular == c.titular
      && a.resumen == Truncar(TextoResumen(c))
      && a.fuente == f.nombre
      && a.fechaPublicacion == ahora
      && ResolverUrl(f.url, c.imagenSrc, unir) == Some(a.urlImagen)
      && ResolverUrl(f.url, c.enlaceHref, unir) == Some(a.enlace)
  {
  }

  /** The first `MAX_POR_FUENTE` headline matches in document order. */
  function Primeros(candidatos: seq<Candidato>): (r: seq<Candidato>)
    ensures |r| <= MAX_POR_FUENTE
    ensures r <= candidatos
    ensures |candidatos| <= MAX_POR_FUENTE ==> r == candidatos
    ensures |candidatos| > MAX_POR_FUENTE ==> |r| == MAX_POR_FUENTE
  {
    if |candidatos| <= MAX_POR_FUENTE then candidatos else candidatos[..MAX_POR_FUENTE]
  }

  /** `p + o`, propagating an exception. */
  function Anteponer(p: seq<Articulo>, o: Option<seq<Articulo>>): Option<seq<Articulo>>
  {
    if o.None? then None else Some(p + o.value)
  }

  /** The loop over candidates as a value: the articles emitted in order, or
      None when some candidate raised. */
  function ExtraerCandidatos(f: Fuente, items: seq<Candidato>, palabras: seq<string>, unir: Unir, ahora: int)
    : (r: Option<seq<Articulo>>)
    ensures r.Some? ==> |r.value| <= |items|
  {
    if items == [] then Some([])
    else
      var resto := ExtraerCandidatos(f, items[1..], palabras, unir, ahora);
      match Procesar(f, items[0], palabras, unir, ahora)
      case Excepcion => None
      case Descartado => resto
      case Emitido(a) => Anteponer([a], resto)
  }

  /** `extraer_fuente(fuente)` as a value: `[]` when the page could not be
      fetched or any considered candidate raised. */
  function ExtraerPagina(f: Fuente, pagina: Pagina, palabras: seq<string>, unir: Unir, ahora: int)
    : (r: seq<Articulo>)
    ensures |r| <= MAX_POR_FUENTE
  {
    match pagina
    case Fallida => []
    case Analizada(candidatos) =>
      var o := ExtraerCandidatos(f, Primeros(candidatos), palabras, unir, ahora);
      if o.None? then [] else o.value
  }

  /** One step of `ExtraerCandidatos` on a suffix of the candidates. */
  lemma ExtraerCandidatosPaso(f: Fuente, items: seq<Candidato>, i: nat, palabras: seq<string>, unir: Unir, ahora: int)
    requires i < |items|
    ensures ExtraerCandidatos(f, items[i..], palabras, unir, ahora)
         == match Procesar(f, items[i], palabras, unir, ahora)
            case Excepcion => None
            case Descartado => ExtraerCandidatos(f, items[i + 1..], palabras, unir, ahora)
            case Emitido(a) => Anteponer([a], ExtraerCandidatos(f, items[i + 1..], palabras, unir, ahora))
  {
    assert items[i..][0] == items[i] && items[i..][1..] == items[i + 1..];
  }

  /** `extraer_fuente`: the loop over the first five headline matches that
      skips irrelevant candidates and appends one article per accepted one;
      any exception yields `[]` for the whole source. */
  method ExtraerFuente(f: Fuente, pagina: Pagina, palabras: seq<string>, unir: Unir, ahora: int)
    returns (articulos: seq<Articulo>)
    ensures articulos == ExtraerPagina(f, pagina, palabras, unir, ahora)
  {
    if pagina.Fallida? {
      return [];
    }
    var items := Primeros(pagina.candidatos);
    articulos := [];
    var i := 0;
    ghost var todo := ExtraerCandidatos(f, items, palabras, unir, ahora);
    assert items[0..] == items;
    assert todo.Some? ==> [] + todo.value == todo.value;
    while i < |items|
      invariant 0 <= i <= |items|
      invariant todo == Anteponer(articulos, ExtraerCandidatos(f, items[i..], palabras, unir, ahora))
    {
      ExtraerCandidatosPaso(f, items, i, palabras, unir, ahora);
      ghost var resto := ExtraerCandidatos(f, items[i + 1..], palabras, unir, ahora);
      match Procesar(f, items[i], palabras, unir, ahora) {
        case Descartado =>
          // `continue`: the headline or the summary is not relevant
        case Excepcion =>
          // urljoin raised: the handler returns [] for the whole source
          return [];
        case Emitido(a) =>
          assert resto.Some? ==> articulos + ([a] + resto.value) == (articulos + [a]) + resto.value;
          articulos := articulos + [a];
      }
      i := i + 1;
    }
    assert items[i..] == [];
  }
}
