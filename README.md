# News ingestion job: a Dafny model

This project models the core of a scheduled job that pulls news listing pages
from five Bolivian sites. It keeps the candidates whose headline and summary
mention a construction-related keyword, and stores them in a table keyed by
the article link. All of this is in `main.py`. The model covers:

- the relevance filter `es_relevante`;
- the per-source candidate loop of `extraer_fuente`, with HTML parsing replaced
  by abstract candidate records;
- the deduplicating persister `guardar_en_db`, where the table is a map keyed
  by `enlace`;
- the run `extraer_todas_las_fuentes`;
- the fixed configuration `FUENTES` and `PALABRAS_CLAVE`.

Modules, one per component, each in its own file:

- `Texto`: an `Option` type, lower-casing, and Python's substring test `p in s`
  (`Contiene`) against the ghost predicate `Occurs`.
- `Configuracion`: the source registry `FUENTES` and the keyword list
  `PALABRAS_CLAVE`, as immutable values.
- `Relevancia`: `EsRelevante` (the `any(...)` over the keywords) and its
  properties.
- `Extraccion`: the candidate, page and article records, and the summary
  truncation.
  - `Procesar` is one loop iteration.
  - `ExtraerCandidatos` and `ExtraerPagina` give the loop's result as a
    value.
  - The method `ExtraerFuente` is the loop itself, proved equal to
    `ExtraerPagina`.
- `PropiedadesExtraccion`: what one source's output satisfies.
- `Persistencia`:
  - `InsertarTodos` is the sequence of `ON CONFLICT (enlace) DO NOTHING`
    inserts.
  - `Guardar` is the all-or-nothing transaction. The class `Tabla` holds the
    rows, and its method `GuardarEnDb` runs the insert loop and the commit.
- `Orquestacion`: `Lote` is the run's batch, the per-source results
  concatenated in registry order.
  - The method `RecolectarLote` is the accumulating loop.
  - `ExtraerTodasLasFuentes` collects, persists once and returns the reported
    total.

Foreign collaborators become parameters:

- The outcome of the HTTP request and the parse is `descargar: Fuente -> Pagina`.
  `Fallida` stands for a network error, a timeout, or a status of 400 or
  more (`raise_for_status`).
- `urljoin` is `unir: (string, string) -> Option<string>`, where `None` means
  the call raised.
- The clock is one timestamp `ahora` for the run.
- Database failures are a `Falla` value: the connection fails, the insert at
  position `k` fails, or the commit fails.

In a few places the code departs from the job's documented intent; the model
follows the code:

- `es_relevante("")` is false: there is no vacuous pass on an empty field.
  Every keyword is non-empty, so a candidate with a missing or empty summary
  is dropped.
- A candidate without a link is not dropped. Its `enlace` is `""`, so all
  link-less articles collide on that key and only the first is stored.
- There is no fallback to the first anchor under the headline when the link
  selector matches nothing.
- The reported total is the batch length, not the number of rows inserted.
- Relevance is tested on the full summary, before truncation. The stored
  summary may therefore no longer contain a keyword.
- An exception raised while handling any one of the first five candidates
  (here, `urljoin` raising) discards the whole source's articles. The
  handler around the entire loop returns `[]`.

## Model

| member | source | states |
|---|---|---|
| Texto.LowerChar | main.py:97 | one character of `str.lower()` on ASCII and Latin-1 capitals (no contract of its own) |
| Texto.Lower | main.py:97 | `str.lower()`: same length, each character lower-cased by `LowerChar` |
| Texto.Contiene | main.py:98 | Python's substring test `p in s` as a left-to-right search (characterised by `ContieneSiYSoloSi`) |
| Texto.ContieneSiYSoloSi | main.py:98 | the substring test `p in s` is true exactly when `p` occurs at some position of `s` |
| Relevancia.AlgunaAparece | main.py:98 | the short-circuit `any` over the keywords, each lower-cased (characterised by `AlgunaApareceSiYSoloSi`) |
| Relevancia.EsRelevante | main.py:96-98 | `es_relevante` with the keyword list as a parameter (characterised by `EsRelevanteSiYSoloSi`) |
| Relevancia.AlgunaApareceSiYSoloSi | main.py:98 | the `any` over the keyword list is true exactly when some lower-cased keyword occurs in the lower-cased text |
| Relevancia.EsRelevanteSiYSoloSi | main.py:96-98 | a text is relevant iff some keyword `k` has `lower(k)` as a substring of `lower(text)` |
| Relevancia.EsRelevanteSinOrden | main.py:98 | the verdict depends only on which keywords are listed, not on their order or repetition |
| Relevancia.VacioNoEsRelevante | main.py:96-98 | with non-empty keywords the empty text is not relevant |
| Relevancia.VacioNoEsRelevanteConfigurado | main.py:60 | under `PALABRAS_CLAVE` the empty text is not relevant |
| Relevancia.LowerIdempotente | main.py:97 | lower-casing twice equals lower-casing once |
| Relevancia.EsRelevanteIgnoraMayusculas | main.py:97-98 | lower-casing the text first does not change the verdict (case-insensitivity) |
| Relevancia.EjemploRelevante | main.py:96-98 | "Proyecto vial en Santa Cruz" is relevant for the keyword "vial" |
| Relevancia.EjemploNoRelevante | main.py:96-98 | "Receta de cocina" is not relevant for the keywords "vial" and "obra" |
| Extraccion.Truncar | main.py:126 | the stored summary has length at most 203; a summary longer than 200 becomes its first 200 characters followed by "...", of length exactly 203; any other summary is stored unchanged |
| Extraccion.TextoResumen | main.py:116 | the summary text, `""` when the summary selector matched nothing (no contract of its own) |
| Extraccion.ResolverUrl | main.py:119-122 | `""` when the element or its `src`/`href` is missing or empty, else `urljoin(url, value)`, which may raise (no contract of its own) |
| Extraccion.Procesar | main.py:110-131 | a candidate is dropped iff its headline or its summary (`""` when absent) is not relevant; it raises iff both are relevant and resolving the image or the link raises |
| Extraccion.ProcesarEmitido | main.py:119-131 | an emitted article keeps the headline, stores the truncated summary, stores as image URL and as link the attributes resolved against the listing URL (`""` when absent), and carries the source's name and the timestamp |
| Extraccion.Primeros | main.py:109 | `[:5]`: a prefix of the headline matches in document order, all of them when there are 5 or fewer, exactly 5 when there are more |
| Extraccion.ExtraerCandidatos | main.py:108-131 | the loop emits at most one article per candidate |
| Extraccion.ExtraerPagina | main.py:101-135 | a source yields at most 5 articles |
| Extraccion.ExtraerFuente | main.py:101-135 | the loop with `continue`, `append` and the exception handler returns exactly `ExtraerPagina`: `[]` for a failed request or any raised exception, otherwise the articles of the kept candidates among the first five, in order |
| PropiedadesExtraccion.ArticuloProviene | main.py:110-131 | every emitted article is what one of the candidates produced |
| PropiedadesExtraccion.CuentaCompleta | main.py:110-131 | when nothing raised, the loop yields exactly one article per candidate that passes both relevance tests |
| PropiedadesExtraccion.Completo | main.py:110-131 | when nothing raised, the article of every candidate that passes both relevance tests is in the result, at the position counting the passing candidates before it, so document order is kept and nothing is lost |
| PropiedadesExtraccion.CompletoPagina | main.py:109-131 | when none of the first five headline matches raised, every one of them that passes both relevance tests is stored by the source |
| PropiedadesExtraccion.ArticulosDePagina | main.py:109-131 | every article of a source has the source's name, the run's timestamp, a summary of length at most 203 and a relevant headline, and comes from one of the first five matches whose headline it keeps, whose relevant summary it stores, truncated, and whose image and link attributes, resolved against the listing URL, it stores |
| PropiedadesExtraccion.ArticulosNoVacios | main.py:111-118 | with non-empty keywords no article a source yields has an empty headline or summary |
| PropiedadesExtraccion.TitularesEnOrdenCandidatos | main.py:110-131 | the emitted headlines are a subsequence, in document order, of the candidates' headlines |
| PropiedadesExtraccion.TitularesEnOrden | main.py:109-131 | one source's headlines are a subsequence of its first five headline matches |
| PropiedadesExtraccion.ExcepcionAnula | main.py:119-135 | the candidate loop yields nothing exactly when some considered candidate raised |
| PropiedadesExtraccion.PaginaQueLanza | main.py:109-135 | a source one of whose first five headline matches raises yields `[]` |
| PropiedadesExtraccion.TitularVacioDescarta | main.py:111-113 | an empty headline drops the candidate under `PALABRAS_CLAVE` |
| PropiedadesExtraccion.ResumenVacioDescarta | main.py:115-118 | a missing or empty summary drops the candidate under `PALABRAS_CLAVE` |
| PropiedadesExtraccion.SinEnlaceSeEmite | main.py:119-131 | a missing link is not a drop: a relevant candidate without a link whose image resolves is emitted, with `""` as its link |
| PropiedadesExtraccion.MasAllaDelQuinto | main.py:109 | headline matches after the fifth never change the source's result |
| PropiedadesExtraccion.EnlacesSinReloj | main.py:122-130 | the timestamp changes neither which candidates are kept nor their links |
| PropiedadesExtraccion.EnlacesPaginaSinReloj | main.py:101-135 | the links a source yields do not depend on the timestamp |
| Persistencia.InsertarSiAusente | main.py:144-147 | one `INSERT ... ON CONFLICT (enlace) DO NOTHING`: the link becomes a key, rows already there are unchanged, a new link stores the article |
| Persistencia.InsertarTodos | main.py:143-155 | the inserts of a batch in order (characterised by the lemmas below) |
| Persistencia.Guardar | main.py:138-161 | the table after the transaction: unchanged on a failure, else every insert applied (the state `GuardarEnDb` is proved to reach) |
| Persistencia.ConservaExistentes | main.py:143-147 | rows already in the table are never changed by a batch |
| Persistencia.ClavesInsertadas | main.py:143-155 | after a batch the table's links are the old links plus the batch's links |
| Persistencia.PrimeroGana | main.py:143-147 | a link new to the table stores the row of its first article in the batch |
| Persistencia.TodosPresentesNoCambia | main.py:143-147 | a batch whose links are all stored already changes nothing |
| Persistencia.ReingestaNoCambia | main.py:143-156 | persisting a batch with the same links as one already persisted changes nothing, whatever its other columns hold |
| Persistencia.Idempotente | main.py:143-156 | persisting the same batch twice gives the table of persisting it once |
| Persistencia.FilasNuevasAcotadas | main.py:143-155 | a batch adds at most one row per article |
| Persistencia.SinEnlaceColisionan | main.py:143-147 | two link-less articles collide on the key `""`: only the first is stored, so fewer rows are added than articles |
| Persistencia.Tabla.GuardarEnDb | main.py:138-161 | with any failure (connection, an insert within the batch, the commit) the table is unchanged; otherwise it is the old table after the ordered insert-if-absent of every article |
| Orquestacion.Lote | main.py:164-169 | the run's batch, the per-source results concatenated in registry order (characterised by the lemmas below) |
| Orquestacion.RecolectarLote | main.py:166-169 | the accumulator ends as the concatenation of the per-source results in registry order |
| Orquestacion.ExtraerTodasLasFuentes | main.py:164-172 | the run persists the batch of `FUENTES` under `PALABRAS_CLAVE` once and reports the batch length |
| Orquestacion.LoteConcatena | main.py:166-169 | the batch of two registries back to back is the concatenation of their batches |
| Orquestacion.FuenteVaciaNoAporta | main.py:164-169 | a source that yields no article contributes nothing to the batch and does not change the other sources' contributions |
| Orquestacion.FuenteFallidaNoAporta | main.py:102-106 | a source whose request fails contributes nothing and does not change the other sources' contributions |
| Orquestacion.FuenteQueLanzaNoAporta | main.py:119-135 | a source one of whose first five matches raises in `urljoin` contributes nothing and does not change the other sources' contributions |
| Orquestacion.LoteAcotado | main.py:166-169 | a run yields at most 5 articles per source, each tagged with the name of a registered source |
| Orquestacion.EnlacesLoteSinReloj | main.py:164-169 | the links of a run do not depend on the timestamp |
| Orquestacion.SegundaCorridaNoCambia | main.py:164-171 | a second fault-free run over the same pages, at any time, leaves the table as the first run left it |
| Orquestacion.TotalNoSubestima | main.py:171-172 | the reported total (the batch length) is at least the number of rows the run added |

## Left out

- HTTP fetching: the user-agent header, the 10-second timeout and `raise_for_status` are network I/O. The request's outcome is the parameter `descargar`, and `Fallida` yields `[]`.
- HTML parsing: BeautifulSoup, the CSS `select`/`select_one` calls, `find_parent("article")` and `get_text(strip=True)` belong to a foreign library. A parsed page is the sequence of `Candidato` records the headline selector would yield. Each record holds what the other selectors find in its container. The selectors in `FUENTES` are kept as uninterpreted text.
- `urljoin` is a library call, modelled as the uninterpreted parameter `unir`. The model therefore says nothing about links being absolute URLs.
- Lower-casing: `Lower` covers ASCII `A`-`Z` and the Latin-1 capitals U+00C0-U+00DE except U+00D7, which is what every keyword needs. Other Unicode case mappings of `str.lower()` are not modelled.
- Timestamps: `datetime.now()` is read once per article in the source. The model uses one timestamp `ahora` per run, so it does not distinguish articles of one run by capture time.
- The database: the psycopg2 connection, cursor and close are not modelled. `crear_tabla` and its `CREATE TABLE IF NOT EXISTS` DDL run at the start of each run and are ignored. The generated `id` column (`SERIAL`) is also not modelled. The table is a map from `enlace` to the stored article.
- Scheduling: the `schedule` library, the daily 08:00 trigger, `main()` and the `time.sleep(60)` polling loop are scheduling over a library outside the model.
- All `print` logging is left out.
