/** The job's fixed configuration: the source registry `FUENTES` and the
    keyword list `PALABRAS_CLAVE`, both immutable values. */
module Configuracion {

  /** One news site: its provenance name, its listing URL and the four CSS
      selectors (headline, summary, image, link). The selectors are kept as
      text; the model never interprets them. */
  datatype Fuente = Fuente(
    nombre: string,
    url: string,
    selectorTitular: string,
    selectorResumen: string,
    selectorImagen: string,
    selectorEnlace: string)

  const FUENTES: seq<Fuente> := [
    Fuente("El Deber", "https://eldeber.com.bo/santa-cruz",
           "h3.teaser-title, h2.headline", "p.teaser-text, .excerpt",
           "img.teaser-image, .featured-image img", "a.teaser-link, h3 a"),
    Fuente("El Día", "https://www.eldia.com.bo/",
           "h2.title, h3.entry-title", "p.description",
           "img.wp-post-image", "a.post-link"),
    Fuente("Cadecocruz", "https://cadecocruz.org.bo/index.php?pg2=210",
           "h2.news-title", "p.news-summary",
           "img.news-img", "a.news-link"),
    Fuente("Contacto Construcción", "https://contactoconstruccion.com/",
           "h2.post-title", "p.post-excerpt",
           ".post-thumbnail img", "a.post-url"),
    Fuente("Urgente.bo", "https://www.urgente.bo/",
           "h3.article-title", ".article-summary",
           "img.article-img", "a.read-more")
  ]

  const PALABRAS_CLAVE: seq<string> := [
    "construcción", "ingeniería", "infraestructura", "Santa Cruz", "Bolivia",
    "obra", "proyecto", "urbanismo", "Urubó", "vial"
  ]

  /** Every keyword is non-empty; the relevance filter relies on it. */
  predicate PalabrasNoVacias(palabras: seq<string>)
  {
    forall k :: 0 <= k < |palabras| ==> palabras[k] != ""
  }
}
