/** The `Conteudo` page: two shelves, devotionals and Bible studies, of at most five cards each. */
module ContentPage {
  import opened Seqs
  import opened Wrappers
  import opened NewsPage
  import opened PageUrls

  function OfCategory(c: string): NewsItem -> bool {
    (item: NewsItem) => item.category == Some(c)
  }

  /** `devotionals`. */
  function Devotionals(content: seq<NewsItem>): seq<NewsItem> {
    Filter(content, OfCategory("devocional"))
  }

  /** `studies`. */
  function Studies(content: seq<NewsItem>): seq<NewsItem> {
    Filter(content, OfCategory("estudo"))
  }

  /**
   * Each shelf list holds exactly the items of its category, in the order
   * the query returned them, and no item is on both.
   */
  lemma ShelvesByCategory(content: seq<NewsItem>)
    ensures forall x :: x in Devotionals(content) <==> x in content && x.category == Some("devocional")
    ensures forall x :: x in Studies(content) <==> x in content && x.category == Some("estudo")
    ensures Subseq(Devotionals(content), content) && Subseq(Studies(content), content)
    ensures forall x :: !(x in Devotionals(content) && x in Studies(content))
  {
    FilterIsSubseq(content, OfCategory("devocional"));
    FilterIsSubseq(content, OfCategory("estudo"));
    FilterDisjoint(content, OfCategory("devocional"), OfCategory("estudo"));
  }

  /** What a shelf renders: its empty message, or the cards of its first items. */
  datatype Shelf = Empty(message: string) | Cards(items: seq<NewsItem>)

  const ShelfSize := 5

  /** `list.length === 0 ? <empty message> : list.slice(0, 5).map(...)`. */
  function ShelfOf(list: seq<NewsItem>, emptyMessage: string): (s: Shelf)
    ensures s.Empty? <==> list == []
    ensures s.Empty? ==> s.message == emptyMessage
    ensures s.Cards? ==> 0 < |s.items| <= ShelfSize && |s.items| <= |list| && s.items == list[..|s.items|]
    ensures s.Cards? ==> |s.items| == if |list| < ShelfSize then |list| else ShelfSize
  {
    if |list| == 0 then Empty(emptyMessage)
    else
      var items := Take(list, ShelfSize);
      assert items == list[..|items|];
      Cards(items)
  }

  function DevotionalShelf(content: seq<NewsItem>): Shelf {
    ShelfOf(Devotionals(content), "Nenhum devocional disponível")
  }

  function StudyShelf(content: seq<NewsItem>): Shelf {
    ShelfOf(Studies(content), "Nenhum estudo disponível")
  }

  /**
   * The devotional shelf shows the first (at most five) devotionals, each a
   * `devocional` item of the content; it is empty only when there are none.
   */
  lemma DevotionalShelfSpec(content: seq<NewsItem>)
    ensures DevotionalShelf(content).Empty? <==> forall x :: x in content ==> x.category != Some("devocional")
    ensures DevotionalShelf(content).Cards? ==>
      var cards := DevotionalShelf(content).items;
      |cards| <= ShelfSize && cards == Devotionals(content)[..|cards|]
      && forall x :: x in cards ==> x in content && x.category == Some("devocional")
  {
    var list := Devotionals(content);
    ShelvesByCategory(content);
    assert list != [] ==> list[0] in list;
    if DevotionalShelf(content).Cards? {
      var cards := DevotionalShelf(content).items;
      forall x | x in cards ensures x in list {
        var i :| 0 <= i < |cards| && cards[i] == x;
        assert list[i] == x;
      }
    }
  }

  /** The study shelf shows the first (at most five) studies; it is empty only when there are none. */
  lemma StudyShelfSpec(content: seq<NewsItem>)
    ensures StudyShelf(content).Empty? <==> forall x :: x in content ==> x.category != Some("estudo")
    ensures StudyShelf(content).Cards? ==>
      var cards := StudyShelf(content).items;
      |cards| <= ShelfSize && cards == Studies(content)[..|cards|]
      && forall x :: x in cards ==> x in content && x.category == Some("estudo")
  {
    var list := Studies(content);
    ShelvesByCategory(content);
    assert list != [] ==> list[0] in list;
    if StudyShelf(content).Cards? {
      var cards := StudyShelf(content).items;
      forall x | x in cards ensures x in list {
        var i :| 0 <= i < |cards| && cards[i] == x;
        assert list[i] == x;
      }
    }
  }

  /** Each card links to the detail page of its own item. */
  function CardLink(item: NewsItem): (link: string)
    ensures |link| >= |"/noticia-detalhe" + DetailQuery| && DetailId(link) == item.id
  {
    NewsDetailLinkRoundTrip(item.id, item.id);
    NewsDetailLink(item.id)
  }
}
