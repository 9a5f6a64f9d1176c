/** The run `extraer_todas_las_fuentes`: every source of the registry in
    order, one batch, one call to the persister. */
module Orquestacion {
  import opened Texto
  import opened Configuracion
  import opened Extraccion
  import opened PropiedadesExtraccion
  import opened Persistencia

  /** The page each source's request yields during this run. */
  type Descargar = Fuente -> Pagina

  /** The batch of a run: each source's articles, concatenated in registry
      order. */
  function Lote(fuentes: seq<Fuente>, descargar: Descargar, palabras: seq<string>, unir: Unir, ahora: int)
    : seq<Articulo>
    decreases |fuentes|
  {
    if fuentes == [] then []
    else ExtraerPagina(fuentes[0], descargar(fuentes[0]), palabras, unir, ahora)
         + Lote(fuentes[1..], descargar, palabras, unir, ahora)
  }

  /** The loop over the registry that extends the run's accumulator with each
      source's articles. */
  method RecolectarLote(fuentes: seq<Fuente>, descargar: Descargar, palabras: seq<string>, unir: Unir, ahora: int)
    returns (todos: seq<Articulo>)
    ensures todos == Lote(fuentes, descargar, palabras, unir, ahora)
  {
    todos := [];
    var i := 0;
    assert fuentes[0..] == fuentes;
    while i < |fuentes|
      invariant 0 <= i <= |fuentes|
      invariant Lote(fuentes, descargar, palabras, unir, ahora) == todos + Lote(fuentes[i..], descargar, palabras, unir, ahora)
    {
      var fuente := fuentes[i];
      assert fuentes[i..][0] == fuente && fuentes[i..][1..] == fuentes[i + 1..];
      var articulos := ExtraerFuente(fuente, descargar(fuente), palabras, unir, ahora);
      assert todos + (articulos + Lote(fuentes[i + 1..], descargar, palabras, unir, ahora))
          == (todos + articulos) + Lote(fuentes[i + 1..], descargar, palabras, unir, ahora);
      todos := todos + articulos;
      i := i + 1;
    }
    assert fuentes[i..] == [];
  }

  /** `extraer_todas_las_fuentes()`: collects the batch over `FUENTES` with
      `PALABRAS_CLAVE`, persists it once and reports its length. */
  method ExtraerTodasLasFuentes(tabla: Tabla, descargar: Descargar, unir: Unir, ahora: int, falla: Falla)
    returns (total: nat)
    modifies tabla
    ensures total == |Lote(FUENTES, descargar, PALABRAS_CLAVE, unir, ahora)|
    ensures tabla.filas == Guardar(old(tabla.filas), Lote(FUENTES, descargar, PALABRAS_CLAVE, unir, ahora), falla)
  {
    var todos := RecolectarLote(FUENTES, descargar, PALABRAS_CLAVE, unir, ahora);
    tabla.GuardarEnDb(todos, falla);
    total := |todos|;
  }

  /** Each source's contribution is independent of the others'. */
  lemma {:induction false} LoteConcatena(
    a: seq<Fuente>, b: seq<Fuente>, descargar: Descargar, palabras: seq<string>, unir: Unir, ahora: int)
    ensures Lote(a + b, descargar, palabras, unir, ahora)
         == Lote(a, descargar, palabras, unir, ahora) + Lote(b, descargar, palabras, unir, ahora)
    decreases |a|
  {
    if a == [] {
      assert a + b == b;
    } else {
      assert (a + b)[0] == a[0] && (a + b)[1..] == a[1..] + b;
      LoteConcatena(a[1..], b, descargar, palabras, unir, ahora);
    }
  }

  /** A source that yields no article contributes nothing to the batch and
      leaves the other sources' contributions as they are. */
  lemma FuenteVaciaNoAporta(
    a: seq<Fuente>, f: Fuente, b: seq<Fuente>, descargar: Descargar, palabras: seq<string>, unir: Unir, ahora: int)
    requires ExtraerPagina(f, descargar(f), palabras, unir, ahora) == []
    ensures Lote(a + [f] + b, descargar, palabras, unir, ahora) == Lote(a + b, descargar, palabras, unir, ahora)
  {
    assert [f][0] == f && [f][1..] == [];
    assert Lote([f], descargar, palabras, unir, ahora) == [];
    LoteConcatena(a + [f], b, descargar, palabras, unir, ahora);
    LoteConcatena(a, [f], descargar, palabras, unir, ahora);
    LoteConcatena(a, b, descargar, palabras, unir, ahora);
  }

  /** A source whose request fails contributes nothing. */
  lemma FuenteFallidaNoAporta(
    a: seq<Fuente>, f: Fuente, b: seq<Fuente>, descargar: Descargar, palabras: seq<string>, unir: Unir, ahora: int)
    requires descargar(f) == Fallida
    ensures Lote(a + [f] + b, descargar, palabras, unir, ahora) == Lote(a + b, descargar, palabras, unir, ahora)
  {
    FuenteVaciaNoAporta(a, f, b, descargar, palabras, unir, ahora);
  }

  /** A source one of whose first five headline matches raises contributes
      nothing, and the other sources are unaffected. */
  lemma FuenteQueLanzaNoAporta(
    a: seq<Fuente>, f: Fuente, b: seq<Fuente>, descargar: Descargar, palabras: seq<string>, unir: Unir, ahora: int,
    i: nat)
    requires descargar(f).Analizada?
    requires i < |descargar(f).candidatos| && i < MAX_POR_FUENTE
    requires Procesar(f, descargar(f).candidatos[i], palabras, unir, ahora).Excepcion?
    ensures Lote(a + [f] + b, descargar, palabras, unir, ahora) == Lote(a + b, descargar, palabras, unir, ahora)
  {
    PaginaQueLanza(f, descargar(f).candidatos, palabras, unir, ahora, i);
    FuenteVaciaNoAporta(a, f, b, descargar, palabras, unir, ahora);
  }

  /** A run yields at most five articles per source, each tagged with the
      name of a registered source. */
  lemma {:induction false} LoteAcotado(fuentes: seq<Fuente>, descargar: Descargar, palabras: seq<string>, unir: Unir, ahora: int)
    ensures |Lote(fuentes, descargar, palabras, unir, ahora)| <= MAX_POR_FUENTE * |fuentes|
    ensures forall a :: a in Lote(fuentes, descargar, palabras, unir, ahora) ==>
      exists i :: 0 <= i < |fuentes| && fuentes[i].nombre == a.fuente
    decreases |fuentes|
  {
    if fuentes != [] {
      var f := fuentes[0];
      var primeros := ExtraerPagina(f, descargar(f), palabras, unir, ahora);
      var resto := Lote(fuentes[1..], descargar, palabras, unir, ahora);
      LoteAcotado(fuentes[1..], descargar, palabras, unir, ahora);
      ArticulosDePagina(f, descargar(f), palabras, unir, ahora);
      forall a | a in Lote(fuentes, descargar, palabras, unir, ahora)
        ensures exists i :: 0 <= i < |fuentes| && fuentes[i].nombre == a.fuente
      {
        if a in primeros {
          assert fuentes[0].nombre == a.fuente;
        } else {
          assert a in resto;
          var i :| 0 <= i < |fuentes[1..]| && fuentes[1..][i].nombre == a.fuente;
          assert fuentes[i + 1] == fuentes[1..][i];
        }
      }
    }
  }

  /** The clock does not change the links of a run. */
  lemma {:induction false} EnlacesLoteSinReloj(
    fuentes: seq<Fuente>, descargar: Descargar, palabras: seq<string>, unir: Unir, t1: int, t2: int)
    ensures Enlaces(Lote(fuentes, descargar, palabras, unir, t1)) == Enlaces(Lote(fuentes, descargar, palabras, unir, t2))
    decreases |fuentes|
  {
    if fuentes != [] {
      var f := fuentes[0];
      EnlacesPaginaSinReloj(f, descargar(f), palabras, unir, t1, t2);
      EnlacesLoteSinReloj(fuentes[1..], descargar, palabras, unir, t1, t2);
      EnlacesConcatena(ExtraerPagina(f, descargar(f), palabras, unir, t1), Lote(fuentes[1..], descargar, palabras, unir, t1));
      EnlacesConcatena(ExtraerPagina(f, descargar(f), palabras, unir, t2), Lote(fuentes[1..], descargar, palabras, unir, t2));
    }
  }

  /** Re-ingestion is idempotent: a second fault-free run over the same pages,
      at any later time, leaves the table exactly as the first run left it. */
  lemma SegundaCorridaNoCambia(filas: Filas, descargar: Descargar, unir: Unir, t1: int, t2: int)
    ensures var primera := Guardar(filas, Lote(FUENTES, descargar, PALABRAS_CLAVE, unir, t1), SinFalla);
      Guardar(primera, Lote(FUENTES, descargar, PALABRAS_CLAVE, unir, t2), SinFalla) == primera
  {
    EnlacesLoteSinReloj(FUENTES, descargar, PALABRAS_CLAVE, unir, t1, t2);
    ReingestaNoCambia(filas, Lote(FUENTES, descargar, PALABRAS_CLAVE, unir, t1), Lote(FUENTES, descargar, PALABRAS_CLAVE, unir, t2));
  }

  /** The reported total, the batch length, is never below the number of
      rows the run actually added. */
  lemma TotalNoSubestima(filas: Filas, lote: seq<Articulo>, falla: Falla)
    ensures |Guardar(filas, lote, falla)| <= |filas| + |lote|
  {
    FilasNuevasAcotadas(filas, lote);
  }
}
