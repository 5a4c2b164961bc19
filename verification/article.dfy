/** The parsed article the game is played on: title tokens and a tree of
    sections. The parser that produces it is not part of this model; these
    types are the shapes src/game.rs and src/gui.rs match on. */
module Article {

  /** A maximal run of word characters, or a run of everything else. */
  datatype Token = Word(text: string) | NonWord(text: string)

  /** One item of a list: its own sequence of sections (a `Vec<Section>`). */
  datatype ListItem = ListItem(sections: seq<Section>)

  datatype Section =
    | Heading(level: nat, tokens: seq<Token>)
    | Paragraph(tokens: seq<Token>)
    | UnorderedList(items: seq<ListItem>)
    | OrderedList(items: seq<ListItem>)

  datatype WikiArticle = WikiArticle(title: seq<Token>, content: seq<Section>)

  /** The tokens of `ss` in document order, descending into every list item. */
  function SectionsTokens(ss: seq<Section>): seq<Token>
    decreases ss
  {
    if ss == [] then [] else SectionTokens(ss[0]) + SectionsTokens(ss[1..])
  }

  function SectionTokens(s: Section): seq<Token>
    decreases s
  {
    match s
    case Heading(_, tokens) => tokens
    case Paragraph(tokens) => tokens
    case UnorderedList(items) => ItemsTokens(items)
    case OrderedList(items) => ItemsTokens(items)
  }

  function ItemsTokens(items: seq<ListItem>): seq<Token>
    decreases items
  {
    if items == [] then [] else SectionsTokens(items[0].sections) + ItemsTokens(items[1..])
  }

  /** Every token of the article: the title, then the content. */
  function ArticleTokens(a: WikiArticle): seq<Token>
  {
    a.title + SectionsTokens(a.content)
  }

  /** The text the tokens were cut from. */
  function PlainText(tokens: seq<Token>): string
  {
    if tokens == [] then "" else tokens[0].text + PlainText(tokens[1..])
  }

  /** The number of `Word` tokens. */
  function WordCount(tokens: seq<Token>): nat
  {
    if tokens == [] then 0 else (if tokens[0].Word? then 1 else 0) + WordCount(tokens[1..])
  }

  lemma {:induction false} SectionsTokensAppend(a: seq<Section>, b: seq<Section>)
    ensures SectionsTokens(a + b) == SectionsTokens(a) + SectionsTokens(b)
  {
    if a == [] {
      assert a + b == b;
    } else {
      assert (a + b)[1..] == a[1..] + b;
      SectionsTokensAppend(a[1..], b);
    }
  }

  lemma {:induction false} ItemsTokensAppend(a: seq<ListItem>, b: seq<ListItem>)
    ensures ItemsTokens(a + b) == ItemsTokens(a) + ItemsTokens(b)
  {
    if a == [] {
      assert a + b == b;
    } else {
      assert (a + b)[1..] == a[1..] + b;
      ItemsTokensAppend(a[1..], b);
    }
  }
}
