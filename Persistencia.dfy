/** The deduplicating persister `guardar_en_db`: one
    `INSERT ... ON CONFLICT (enlace) DO NOTHING` per article inside one
    transaction, committed after the last insert. The table is a map from the
    unique `enlace` column to its row. */
module Persistencia {
  import opened Extraccion
  import opened PropiedadesExtraccion

  /** The rows of `noticias_construccion_bolivia`, keyed by `enlace`. */
  type Filas = map<string, Articulo>

  /** One insert with `ON CONFLICT (enlace) DO NOTHING`. */
  function InsertarSiAusente(filas: Filas, a: Articulo): (r: Filas)
    ensures r.Keys == filas.Keys + {a.enlace}
    ensures forall k :: k in filas ==> r[k] == filas[k]
    ensures a.enlace !in filas ==> r[a.enlace] == a
  {
    if a.enlace in filas then filas else filas[a.enlace := a]
  }

  /** The inserts of a batch, in order. */
  function InsertarTodos(filas: Filas, lote: seq<Articulo>): Filas
    decreases |lote|
  {
    if lote == [] then filas else InsertarTodos(InsertarSiAusente(filas, lote[0]), lote[1..])
  }

  /** Where the database may fail during `guardar_en_db`: the connection
      cannot be opened, the insert of the article at position `indice`
      raises, or the commit raises. */
  datatype Falla = SinFalla | FallaConexion | FallaInsercion(indice: nat) | FallaCommit

  /** The failure actually happens for a batch of `n` articles (an insert
      failure at a position past the batch never fires). */
  predicate Aborta(falla: Falla, n: nat)
  {
    falla.FallaConexion? || falla.FallaCommit? || (falla.FallaInsercion? && falla.indice < n)
  }

  /** The table after `guardar_en_db`: every insert committed, or none. */
  function Guardar(filas: Filas, lote: seq<Articulo>, falla: Falla): Filas
  {
    if Aborta(falla, |lote|) then filas else InsertarTodos(filas, lote)
  }

  /** The links that a batch carries, as a set. */
  function ConjuntoEnlaces(lote: seq<Articulo>): set<string>
  {
    set e | e in Enlaces(lote)
  }

  /** Rows already present are never changed. */
  lemma {:induction false} ConservaExistentes(filas: Filas, lote: seq<Articulo>)
    ensures forall k :: k in filas ==> k in InsertarTodos(filas, lote) && InsertarTodos(filas, lote)[k] == filas[k]
    decreases |lote|
  {
    if lote != [] {
      ConservaExistentes(InsertarSiAusente(filas, lote[0]), lote[1..]);
    }
  }

  /** After the batch the table holds exactly the old links plus the batch's
      links. */
  lemma {:induction false} ClavesInsertadas(filas: Filas, lote: seq<Articulo>)
    ensures InsertarTodos(filas, lote).Keys == filas.Keys + ConjuntoEnlaces(lote)
    decreases |lote|
  {
    if lote != [] {
      ClavesInsertadas(InsertarSiAusente(filas, lote[0]), lote[1..]);
      assert Enlaces(lote) == [lote[0].enlace] + Enlaces(lote[1..]);
      assert ConjuntoEnlaces(lote) == {lote[0].enlace} + ConjuntoEnlaces(lote[1..]);
    }
  }

  /** First write wins: a link new to the table gets the row of its first
      article in the batch. */
  lemma {:induction false} PrimeroGana(filas: Filas, lote: seq<Articulo>, i: nat)
    requires i < |lote|
    requires lote[i].enlace !in filas
    requires forall j :: 0 <= j < i ==> lote[j].enlace != lote[i].enlace
    ensures lote[i].enlace in InsertarTodos(filas, lote)
    ensures InsertarTodos(filas, lote)[lote[i].enlace] == lote[i]
    decreases |lote|
  {
    var siguiente := InsertarSiAusente(filas, lote[0]);
    if i == 0 {
      ConservaExistentes(siguiente, lote[1..]);
    } else {
      assert lote[1..][i - 1] == lote[i];
      forall j | 0 <= j < i - 1 ensures lote[1..][j].enlace != lote[1..][i - 1].enlace {
        assert lote[1..][j] == lote[j + 1];
      }
      PrimeroGana(siguiente, lote[1..], i - 1);
    }
  }

  /** A batch all of whose links are already stored changes nothing. */
  lemma {:induction false} TodosPresentesNoCambia(filas: Filas, lote: seq<Articulo>)
    requires forall i :: 0 <= i < |lote| ==> lote[i].enlace in filas
    ensures InsertarTodos(filas, lote) == filas
    decreases |lote|
  {
    if lote != [] {
      assert forall i :: 0 <= i < |lote[1..]| ==> lote[1..][i] == lote[i + 1];
      TodosPresentesNoCambia(filas, lote[1..]);
    }
  }

  /** Persisting a batch whose links were all persisted before changes
      nothing, whatever the other columns hold: re-ingesting the same links
      is a no-op. */
  lemma ReingestaNoCambia(filas: Filas, primero: seq<Articulo>, segundo: seq<Articulo>)
    requires Enlaces(segundo) == Enlaces(primero)
    ensures InsertarTodos(InsertarTodos(filas, primero), segundo) == InsertarTodos(filas, primero)
  {
    ClavesInsertadas(filas, primero);
    forall i | 0 <= i < |segundo| ensures segundo[i].enlace in InsertarTodos(filas, primero) {
      assert Enlaces(segundo)[i] == Enlaces(primero)[i];
      assert Enlaces(primero)[i] in ConjuntoEnlaces(primero);
    }
    TodosPresentesNoCambia(InsertarTodos(filas, primero), segundo);
  }

  /** Persisting the same batch twice gives the table of persisting it once. */
  lemma Idempotente(filas: Filas, lote: seq<Articulo>)
    ensures InsertarTodos(InsertarTodos(filas, lote), lote) == InsertarTodos(filas, lote)
  {
    ReingestaNoCambia(filas, lote, lote);
  }

  /** A batch adds at most one row per article. */
  lemma {:induction false} FilasNuevasAcotadas(filas: Filas, lote: seq<Articulo>)
    ensures |InsertarTodos(filas, lote)| <= |filas| + |lote|
    decreases |lote|
  {
    if lote != [] {
      FilasNuevasAcotadas(InsertarSiAusente(filas, lote[0]), lote[1..]);
    }
  }

  /** Two link-less articles collide on the key `""`: only the first is
      stored, so the batch length overstates the rows inserted. */
  lemma SinEnlaceColisionan(filas: Filas, a: Articulo, b: Articulo)
    requires a.enlace == "" && b.enlace == "" && "" !in filas
    ensures InsertarTodos(filas, [a, b]) == filas["" := a]
    ensures |InsertarTodos(filas, [a, b])| == |filas| + 1 < |filas| + |[a, b]|
  {
    var uno := InsertarSiAusente(filas, a);
    assert uno == filas["" := a];
    assert InsertarSiAusente(uno, b) == uno;
    assert [a, b][0] == a && [a, b][1..] == [b];
    assert [b][0] == b && [b][1..] == [];
    assert InsertarTodos(uno, [b]) == InsertarTodos(uno, []);
  }

  /** The table `noticias_construccion_bolivia`. */
  class Tabla {
    var filas: Filas

    /** A freshly created, empty table. */
    constructor ()
      ensures filas == map[]
    {
      filas := map[];
    }

    /** `guardar_en_db(articulos)`: the inserts run in a transaction that is
        committed only after the last one; a failure anywhere leaves the
        table as it was. */
    method GuardarEnDb(articulos: seq<Articulo>, falla: Falla)
      modifies this
      ensures filas == Guardar(old(filas), articulos, falla)
      ensures Aborta(falla, |articulos|) ==> filas == old(filas)
      ensures !Aborta(falla, |articulos|) ==> filas == InsertarTodos(old(filas), articulos)
    {
      if falla.FallaConexion? {
        // conectar_db() returned None: nothing is attempted
        return;
      }
      var pendiente := filas;
      var i := 0;
      assert articulos[0..] == articulos;
      while i < |articulos|
        invariant 0 <= i <= |articulos|
        invariant !(falla.FallaInsercion? && falla.indice < i)
        invariant InsertarTodos(pendiente, articulos[i..]) == InsertarTodos(filas, articulos)
      {
        if falla == FallaInsercion(i) {
          // the exception skips the commit; closing the connection rolls back
          return;
        }
        assert articulos[i..][0] == articulos[i] && articulos[i..][1..] == articulos[i + 1..];
        pendiente := InsertarSiAusente(pendiente, articulos[i]);
        i := i + 1;
      }
      if falla.FallaCommit? {
        return;
      }
      assert articulos[i..] == [];
      filas := pendiente;
    }
  }
}
