/** `createPageUrl`: the path of each named page of the site. */
module PageUrls {

  /** The route table, page name to path. */
  const Routes: map<string, string> := map[
    "Home" := "/",
    "Agenda" := "/agenda",
    "AoVivo" := "/ao-vivo",
    "Ofertas" := "/ofertas",
    "Lideranca" := "/lideranca",
    "Congregacoes" := "/congregacoes",
    "Departamentos" := "/departamentos",
    "Noticias" := "/noticias",
    "NoticiaDetalhe" := "/noticia-detalhe",
    "Conteudo" := "/conteudo"
  ]

  /** `routes[pageName] || '/'`: a known page's path, and the home page for any other name. */
  function CreatePageUrl(pageName: string): (path: string)
    ensures pageName in Routes ==> path == Routes[pageName]
    ensures pageName !in Routes ==> path == "/"
  {
    RoutesNonEmpty();
    if pageName in Routes && Routes[pageName] != "" then Routes[pageName] else "/"
  }

  lemma RoutesNonEmpty()
    ensures forall n :: n in Routes ==> Routes[n] != "" && Routes[n][0] == '/'
  {
  }

  /** Every page address is an absolute path. */
  lemma PathsAreAbsolute(pageName: string)
    ensures |CreatePageUrl(pageName)| > 0 && CreatePageUrl(pageName)[0] == '/'
  {
    RoutesNonEmpty();
  }

  /** Different pages have different paths; only `Home` shares `/` with the unknown names. */
  lemma RoutesInjective(a: string, b: string)
    requires a in Routes && b in Routes && a != b
    ensures CreatePageUrl(a) != CreatePageUrl(b)
  {
    RoutesDistinct();
  }

  lemma RoutesDistinct()
    ensures forall a, b :: a in Routes && b in Routes && a != b ==> Routes[a] != Routes[b]
  {
  }

  /** Only `Home` and names outside the table lead to `/`. */
  lemma RootOnlyForHome(pageName: string)
    ensures CreatePageUrl(pageName) == "/" <==> pageName == "Home" || pageName !in Routes
  {
    RoutesDistinct();
  }

  const DetailQuery := "?id="

  /** `${createPageUrl('NoticiaDetalhe')}?id=${item.id}`: the link to one news item. */
  function NewsDetailLink(id: string): (link: string)
    ensures link == "/noticia-detalhe" + DetailQuery + id
  {
    CreatePageUrl("NoticiaDetalhe") + DetailQuery + id
  }

  /** The item id read back out of a detail link. */
  function DetailId(link: string): string
    requires |link| >= |"/noticia-detalhe" + DetailQuery|
  {
    link[|"/noticia-detalhe" + DetailQuery|..]
  }

  /** A detail link names its item: the id reads back, and different ids give different links. */
  lemma NewsDetailLinkRoundTrip(a: string, b: string)
    ensures DetailId(NewsDetailLink(a)) == a
    ensures NewsDetailLink(a) == NewsDetailLink(b) <==> a == b
  {
    if NewsDetailLink(a) == NewsDetailLink(b) {
      assert DetailId(NewsDetailLink(a)) == DetailId(NewsDetailLink(b));
    }
  }
}
