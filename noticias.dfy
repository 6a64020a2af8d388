/**
 * The `Noticias` page: a search and category filter over the published
 * news, one featured card (the first highlighted item) and the list of the
 * rest, plus the category badge's label and colour.
 */
module NewsPage {
  import opened Wrappers
  import opened Seqs
  import opened JsString
  import opened JsValue

  datatype NewsItem = NewsItem(id: string, title: string, summary: Option<string>, category: Option<string>, isHighlighted: bool)

  const CategoryKeys: seq<string> := ["aviso", "noticia", "comunicado", "devocional", "estudo"]
  const CategoryLabelList: seq<string> := ["Aviso", "Notícia", "Comunicado", "Devocional", "Estudo"]
  const CategoryColorList: seq<string> :=
    ["bg-red-100 text-red-700", "bg-blue-100 text-blue-700", "bg-amber-100 text-amber-700",
     "bg-purple-100 text-purple-700", "bg-emerald-100 text-emerald-700"]

  const CategoryLabels: map<string, string> :=
    map["aviso" := "Aviso", "noticia" := "Notícia", "comunicado" := "Comunicado",
        "devocional" := "Devocional", "estudo" := "Estudo"]
  const CategoryColors: map<string, string> :=
    map["aviso" := "bg-red-100 text-red-700", "noticia" := "bg-blue-100 text-blue-700",
        "comunicado" := "bg-amber-100 text-amber-700", "devocional" := "bg-purple-100 text-purple-700",
        "estudo" := "bg-emerald-100 text-emerald-700"]

  /** `categoryLabels[item.category] || 'Notícia'`. */
  function CategoryLabel(category: Option<string>): (r: string)
    ensures forall i :: 0 <= i < |CategoryKeys| && category == Some(CategoryKeys[i]) ==> r == CategoryLabelList[i]
    ensures category.None? || category.value !in CategoryKeys ==> r == "Notícia"
  {
    if category.Some? && category.value in CategoryLabels && CategoryLabels[category.value] != "" then
      CategoryLabels[category.value]
    else "Notícia"
  }

  /** `categoryColors[item.category] || categoryColors.noticia`. */
  function CategoryColor(category: Option<string>): (r: string)
    ensures forall i :: 0 <= i < |CategoryKeys| && category == Some(CategoryKeys[i]) ==> r == CategoryColorList[i]
    ensures category.None? || category.value !in CategoryKeys ==> r == CategoryColors["noticia"]
  {
    if category.Some? && category.value in CategoryColors && CategoryColors[category.value] != "" then
      CategoryColors[category.value]
    else CategoryColors["noticia"]
  }

  /** The title, or the summary when there is one, contains the search term, ignoring case. */
  predicate MatchesSearch(item: NewsItem, searchTerm: string) {
    Includes(Lower(item.title), Lower(searchTerm)) ||
    (TruthyText(item.summary) && Includes(Lower(item.summary.value), Lower(searchTerm)))
  }

  predicate MatchesCategory(item: NewsItem, activeCategory: string) {
    activeCategory == "all" || item.category == Some(activeCategory)
  }

  function Shown(searchTerm: string, activeCategory: string): NewsItem -> bool {
    (item: NewsItem) => MatchesSearch(item, searchTerm) && MatchesCategory(item, activeCategory)
  }

  /** `filteredNews`. */
  function FilteredNews(news: seq<NewsItem>, searchTerm: string, activeCategory: string): seq<NewsItem> {
    Filter(news, Shown(searchTerm, activeCategory))
  }

  predicate IsHighlighted(item: NewsItem) {
    item.isHighlighted
  }

  /** `filteredNews.filter(n => n.is_highlighted)[0]`, when there is one. */
  function Featured(filtered: seq<NewsItem>): Option<NewsItem> {
    var h := Filter(filtered, IsHighlighted);
    if h == [] then None else Some(h[0])
  }

  /**
   * `filteredNews.filter(n => !n.is_highlighted || highlighted.indexOf(n) !== 0)`.
   * `indexOf` compares objects by identity, so only the occurrence that is
   * the first highlighted one is dropped; `seen` records that it has passed.
   */
  function RestFrom(filtered: seq<NewsItem>, seen: bool): seq<NewsItem>
    decreases |filtered|
  {
    if filtered == [] then []
    else if filtered[0].isHighlighted && !seen then RestFrom(filtered[1..], true)
    else [filtered[0]] + RestFrom(filtered[1..], seen)
  }

  function Rest(filtered: seq<NewsItem>): seq<NewsItem> {
    RestFrom(filtered, false)
  }

  /** The position of the first highlighted item, or -1. */
  function FirstHighlighted(s: seq<NewsItem>): (k: int)
    ensures -1 <= k < |s|
    ensures k >= 0 ==> s[k].isHighlighted && forall j :: 0 <= j < k ==> !s[j].isHighlighted
    ensures k < 0 ==> forall j :: 0 <= j < |s| ==> !s[j].isHighlighted
  {
    if s == [] then -1
    else if s[0].isHighlighted then 0
    else
      var k := FirstHighlighted(s[1..]);
      if k < 0 then -1 else k + 1
  }

  /** An item is shown iff it is a news item that matches the search and the category. */
  lemma FilteredNewsMembers(news: seq<NewsItem>, searchTerm: string, activeCategory: string)
    ensures forall item :: item in FilteredNews(news, searchTerm, activeCategory) <==>
      && item in news
      && (Includes(Lower(item.title), Lower(searchTerm)) ||
          (TruthyText(item.summary) && Includes(Lower(item.summary.value), Lower(searchTerm))))
      && (activeCategory == "all" || item.category == Some(activeCategory))
  {
  }

  /** The shown items keep their order in the news list. */
  lemma FilteredNewsIsSubseq(news: seq<NewsItem>, searchTerm: string, activeCategory: string)
    ensures Subseq(FilteredNews(news, searchTerm, activeCategory), news)
  {
    FilterIsSubseq(news, Shown(searchTerm, activeCategory));
  }

  /** With no search term and the `all` tab everything is shown. */
  lemma EmptySearchShowsAll(news: seq<NewsItem>)
    ensures FilteredNews(news, "", "all") == news
  {
    forall i | 0 <= i < |news| ensures Shown("", "all")(news[i]) {
      assert StartsWith(Lower(news[i].title), Lower(""));
    }
    FilterAll(news, Shown("", "all"));
  }

  /** The featured item is the first highlighted one, if any. */
  lemma FeaturedIsFirstHighlighted(filtered: seq<NewsItem>)
    ensures var k := FirstHighlighted(filtered);
            Featured(filtered) == if k < 0 then None else Some(filtered[k])
  {
    FeaturedFirst(filtered);
  }

  lemma {:induction false} FeaturedFirst(s: seq<NewsItem>)
    ensures var h := Filter(s, IsHighlighted);
            var k := FirstHighlighted(s);
            (k < 0 <==> h == []) && (k >= 0 ==> h[0] == s[k])
    decreases |s|
  {
    if s != [] {
      FeaturedFirst(s[1..]);
    }
  }

  /**
   * The rest list is the filtered list with exactly the featured occurrence
   * removed; every other item stays once, in order.
   */
  lemma RestOmitsFeatured(filtered: seq<NewsItem>)
    ensures var k := FirstHighlighted(filtered);
            Rest(filtered) == if k < 0 then filtered else filtered[..k] + filtered[k + 1..]
  {
    RestSpec(filtered);
  }

  lemma {:induction false} RestFromSeen(s: seq<NewsItem>)
    ensures RestFrom(s, true) == s
    decreases |s|
  {
    if s != [] {
      RestFromSeen(s[1..]);
      assert s == [s[0]] + s[1..];
    }
  }

  lemma {:induction false} RestSpec(s: seq<NewsItem>)
    ensures var k := FirstHighlighted(s);
            RestFrom(s, false) == if k < 0 then s else s[..k] + s[k + 1..]
    decreases |s|
  {
    if s != [] {
      if s[0].isHighlighted {
        RestFromSeen(s[1..]);
      } else {
        RestSpec(s[1..]);
        var j := FirstHighlighted(s[1..]);
        if j >= 0 {
          assert s[..j + 1] == [s[0]] + s[1..][..j];
          assert s[j + 2..] == s[1..][j + 1..];
        } else {
          assert s == [s[0]] + s[1..];
        }
      }
    }
  }
}
