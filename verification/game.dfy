/** The game state engine of src/game.rs: the loaded article, the set of
    normalised guesses and the selected guess, with the queries the
    front-ends render from. */
module Game {
  import opened Wrappers
  import opened Text
  import opened Article

  datatype TokenTreatment = Blank | Show | Highlight

  /** The `Game` struct. `selectedGuess == ""` is the source's "nothing selected". */
  datatype State = State(article: Option<WikiArticle>, guesses: set<string>, selectedGuess: string)

  /** `Game::new`: no article, no guesses, nothing selected. */
  function New(): (g: State)
    ensures g.article.None? && g.guesses == {} && g.selectedGuess == ""
  {
    State(None, {}, "")
  }

  // ---------------------------------------------------------------------
  // Loading
  // ---------------------------------------------------------------------

  /** `load_article`. The network fetch is the parameter `download` (language,
      title) -> (canonical title, markup); the parser is the parameter `parse`. */
  function LoadArticle<E>(g: State, language: string, title: string,
                          download: (string, string) -> Result<(string, string), E>,
                          parse: (string, string) -> WikiArticle): (r: (State, Result<(), E>))
    ensures download(language, title).Ok? ==>
              var (name, markup) := download(language, title).value;
              r == (State(Some(parse(name, markup)), {}, ""), Ok(()))
    ensures download(language, title).Err? ==> r == (g, Err(download(language, title).error))
  {
    match download(language, title)
    case Ok((name, markup)) =>
      (g.(article := Some(parse(name, markup)), guesses := {}, selectedGuess := ""), Ok(()))
    case Err(e) => (g, Err(e))
  }

  /** `load_random_article`: `randomTitle` is what the random-title lookup
      returned; on success the article is loaded from the English site. */
  function LoadRandomArticle<E>(g: State, randomTitle: Result<string, E>,
                                download: (string, string) -> Result<(string, string), E>,
                                parse: (string, string) -> WikiArticle): (r: (State, Result<(), E>))
    ensures randomTitle.Err? ==> r == (g, Err(randomTitle.error))
    ensures randomTitle.Ok? ==> r == LoadArticle(g, "en", randomTitle.value, download, parse)
    ensures randomTitle.Ok? && download("en", randomTitle.value).Err? ==>
              r == (g, Err(download("en", randomTitle.value).error))
    ensures r.1.Ok? <==> randomTitle.Ok? && download("en", randomTitle.value).Ok?
    ensures r.1.Err? ==> r.0 == g
    ensures r.1.Ok? ==>
              && randomTitle.Ok?
              && download("en", randomTitle.value).Ok?
              && var (name, markup) := download("en", randomTitle.value).value;
                 r.0 == State(Some(parse(name, markup)), {}, "")
  {
    match randomTitle
    case Ok(name) => LoadArticle(g, "en", name, download, parse)
    case Err(e) => (g, Err(e))
  }

  // ---------------------------------------------------------------------
  // Guessing
  // ---------------------------------------------------------------------

  /** The normal form a guess is stored in. */
  function Normalise(raw: string): string
  {
    Lower(Trim(raw))
  }

  /** `guess`: records the trimmed, lower-cased input; nothing is rejected. */
  function Guess(g: State, raw: string): (r: State)
    ensures r.article == g.article && r.selectedGuess == g.selectedGuess
    ensures r.guesses == g.guesses + {Normalise(raw)}
  {
    g.(guesses := g.guesses + {Normalise(raw)})
  }

  // ---------------------------------------------------------------------
  // Title completion and token treatment
  // ---------------------------------------------------------------------

  /** Every `Word` of `tokens`, lower-cased, has been guessed. */
  predicate AllWordsGuessed(tokens: seq<Token>, guesses: set<string>)
  {
    forall i :: 0 <= i < |tokens| && tokens[i].Word? ==> Lower(tokens[i].text) in guesses
  }

  /** The scan of the title in `title_complete`, which stops at the first
      word that has not been guessed. */
  function TitleWordsGuessed(tokens: seq<Token>, guesses: set<string>): (r: bool)
    ensures r <==> AllWordsGuessed(tokens, guesses)
  {
    if tokens == [] then true
    else if tokens[0].Word? && Lower(tokens[0].text) !in guesses then false
    else TitleWordsGuessed(tokens[1..], guesses)
  }

  /** `title_complete`. */
  function TitleComplete(g: State): (r: bool)
    ensures r <==> g.article.Some? && AllWordsGuessed(g.article.value.title, g.guesses)
  {
    match g.article
    case None => false
    case Some(a) => TitleWordsGuessed(a.title, g.guesses)
  }

  /** `get_token_treatment`. */
  function GetTokenTreatment(g: State, t: Token): (r: TokenTreatment)
    ensures t.NonWord? ==> r == Show
    ensures t.Word? ==> (r == Highlight <==> Lower(g.selectedGuess) == Lower(t.text))
    ensures r == Blank <==>
              && t.Word?
              && Lower(g.selectedGuess) != Lower(t.text)
              && Lower(t.text) !in g.guesses
              && !(g.article.Some? && AllWordsGuessed(g.article.value.title, g.guesses))
  {
    match t
    case Word(w) =>
      if Lower(g.selectedGuess) == Lower(w) then Highlight
      else if Lower(w) in g.guesses || TitleComplete(g) then Show
      else Blank
    case NonWord(_) => Show
  }

  // ---------------------------------------------------------------------
  // Occurrence counting
  // ---------------------------------------------------------------------

  /** `t` is a word equal to `word` up to case. */
  predicate Matches(t: Token, word: string)
  {
    t.Word? && Lower(t.text) == Lower(word)
  }

  /** `count_word_in_tokens`. */
  function CountWordInTokens(word: string, tokens: seq<Token>): (n: nat)
    ensures n <= WordCount(tokens)
    ensures n == 0 <==> forall i :: 0 <= i < |tokens| ==> !Matches(tokens[i], word)
  {
    if tokens == [] then 0
    else (if Matches(tokens[0], word) then 1 else 0) + CountWordInTokens(word, tokens[1..])
  }

  lemma {:induction false} CountWordInTokensAppend(word: string, a: seq<Token>, b: seq<Token>)
    ensures CountWordInTokens(word, a + b) == CountWordInTokens(word, a) + CountWordInTokens(word, b)
  {
    if a != [] {
      assert (a + b)[1..] == a[1..] + b;
      CountWordInTokensAppend(word, a[1..], b);
    } else {
      assert a + b == b;
    }
  }

  /** `count_word_in_sections`: the per-section sum, descending into the
      items of both kinds of list. */
  function CountWordInSections(word: string, sections: seq<Section>): (n: nat)
    ensures n == CountWordInTokens(word, SectionsTokens(sections))
    decreases sections
  {
    if sections == [] then 0
    else
      CountWordInTokensAppend(word, SectionTokens(sections[0]), SectionsTokens(sections[1..]));
      CountWordInSection(word, sections[0]) + CountWordInSections(word, sections[1..])
  }

  /** The body of the loop in `count_word_in_sections`, for one section. */
  function CountWordInSection(word: string, s: Section): (n: nat)
    ensures n == CountWordInTokens(word, SectionTokens(s))
    decreases s
  {
    match s
    case Heading(_, tokens) => CountWordInTokens(word, tokens)
    case Paragraph(tokens) => CountWordInTokens(word, tokens)
    case UnorderedList(items) => CountWordInItems(word, items)
    case OrderedList(items) => CountWordInItems(word, items)
  }

  /** The inner loop over list items in `count_word_in_sections`. */
  function CountWordInItems(word: string, items: seq<ListItem>): (n: nat)
    ensures n == CountWordInTokens(word, ItemsTokens(items))
    decreases items
  {
    if items == [] then 0
    else
      CountWordInTokensAppend(word, SectionsTokens(items[0].sections), ItemsTokens(items[1..]));
      CountWordInSections(word, items[0].sections) + CountWordInItems(word, items[1..])
  }

  lemma CountWordInSectionsAppend(word: string, a: seq<Section>, b: seq<Section>)
    ensures CountWordInSections(word, a + b) == CountWordInSections(word, a) + CountWordInSections(word, b)
  {
    SectionsTokensAppend(a, b);
    CountWordInTokensAppend(word, SectionsTokens(a), SectionsTokens(b));
  }

  lemma CountWordInItemsAppend(word: string, a: seq<ListItem>, b: seq<ListItem>)
    ensures CountWordInItems(word, a + b) == CountWordInItems(word, a) + CountWordInItems(word, b)
  {
    ItemsTokensAppend(a, b);
    CountWordInTokensAppend(word, ItemsTokens(a), ItemsTokens(b));
  }

  /** Adding one section at the end adds its own count. */
  lemma CountWordInSectionsSnoc(word: string, a: seq<Section>, s: Section)
    ensures CountWordInSections(word, a + [s]) == CountWordInSections(word, a) + CountWordInSection(word, s)
  {
    CountWordInSectionsAppend(word, a, [s]);
    assert [s][1..] == [];
  }

  /** Adding one list item at the end adds its own count. */
  lemma CountWordInItemsSnoc(word: string, a: seq<ListItem>, item: ListItem)
    ensures CountWordInItems(word, a + [item]) == CountWordInItems(word, a) + CountWordInSections(word, item.sections)
  {
    CountWordInItemsAppend(word, a, [item]);
    assert [item][1..] == [];
  }

  /** `count_word_in_article`: the title count plus the content count, or
      `None` when no article is loaded. */
  function CountWordInArticle(g: State, word: string): (r: Option<nat>)
    ensures r.None? <==> g.article.None?
    ensures r.Some? ==> r.value == CountWordInTokens(word, ArticleTokens(g.article.value))
    ensures r.Some? ==> r.value <= WordCount(ArticleTokens(g.article.value))
    ensures r.Some? ==>
              (r.value == 0 <==>
               forall i :: 0 <= i < |ArticleTokens(g.article.value)| ==>
                             !Matches(ArticleTokens(g.article.value)[i], word))
  {
    match g.article
    case None => None
    case Some(a) =>
      CountWordInTokensAppend(word, a.title, SectionsTokens(a.content));
      Some(CountWordInTokens(word, a.title) + CountWordInSections(word, a.content))
  }

  // ---------------------------------------------------------------------
  // Properties of the engine
  // ---------------------------------------------------------------------

  /** A fresh game has no article: nothing is complete, nothing is counted,
      and every non-empty word is hidden. */
  lemma NewGameHidesEverything(word: string)
    ensures !TitleComplete(New())
    ensures CountWordInArticle(New(), word) == None
    ensures word != "" ==> GetTokenTreatment(New(), Word(word)) == Blank
  {
    if word != "" {
      assert |Lower(word)| != |Lower("")|;
    }
  }

  /** A successful load forgets all progress: afterwards the title is complete
      exactly when it has no words, and a word of the new article is shown
      only if that is so. */
  lemma LoadForgetsProgress<E>(g: State, language: string, title: string,
                               download: (string, string) -> Result<(string, string), E>,
                               parse: (string, string) -> WikiArticle, w: string)
    requires download(language, title).Ok?
    requires w != ""
    ensures var a := LoadArticle(g, language, title, download, parse).0;
            && (TitleComplete(a) <==> forall i :: 0 <= i < |a.article.value.title| ==> a.article.value.title[i].NonWord?)
            && (GetTokenTreatment(a, Word(w)) == Blank <==> !TitleComplete(a))
  {
    var a := LoadArticle(g, language, title, download, parse).0;
    assert |Lower(w)| != |Lower("")|;
    if !TitleComplete(a) {
      var i :| 0 <= i < |a.article.value.title| && a.article.value.title[i].Word?
                 && Lower(a.article.value.title[i].text) !in a.guesses;
    }
  }

  /** Guessing the same input twice has the effect of guessing it once. */
  lemma GuessIdempotent(g: State, raw: string)
    ensures Guess(Guess(g, raw), raw) == Guess(g, raw)
  {
  }

  /** Input that is only whitespace is not rejected: it stores the empty guess. */
  lemma GuessAcceptsBlankInput(g: State, raw: string)
    requires forall i :: 0 <= i < |raw| ==> IsWhitespace(raw[i])
    ensures "" in Guess(g, raw).guesses
  {
    assert TrimStart(raw) == [];
  }

  /** After a guess, every word equal to it up to case is no longer blank. */
  lemma GuessReveals(g: State, raw: string, w: string)
    requires Lower(w) == Normalise(raw)
    ensures GetTokenTreatment(Guess(g, raw), Word(w)) != Blank
  {
  }

  /** Guessing never hides a token: a token that was shown or highlighted
      keeps exactly its treatment. */
  lemma GuessKeepsTreatment(g: State, raw: string, t: Token)
    requires GetTokenTreatment(g, t) != Blank
    ensures GetTokenTreatment(Guess(g, raw), t) == GetTokenTreatment(g, t)
  {
  }

  /** Once the title is complete, no token of any kind is blank. */
  lemma TitleCompleteRevealsAll(g: State, t: Token)
    requires TitleComplete(g)
    ensures GetTokenTreatment(g, t) != Blank
  {
  }

  /** A loaded title without words is complete from the start. */
  lemma TitleWithoutWordsIsComplete(g: State)
    requires g.article.Some?
    requires forall i :: 0 <= i < |g.article.value.title| ==> g.article.value.title[i].NonWord?
    ensures TitleComplete(g)
  {
  }

  /** With nothing selected, no non-empty word is highlighted. */
  lemma NoSelectionHighlightsNothing(g: State, t: Token)
    requires g.selectedGuess == "" && t.text != ""
    ensures GetTokenTreatment(g, t) != Highlight
  {
    assert |Lower(t.text)| != |Lower(g.selectedGuess)|;
  }

  lemma {:induction false} CountWordInTokensIgnoresCase(w1: string, w2: string, tokens: seq<Token>)
    requires Lower(w1) == Lower(w2)
    ensures CountWordInTokens(w1, tokens) == CountWordInTokens(w2, tokens)
  {
    if tokens != [] {
      CountWordInTokensIgnoresCase(w1, w2, tokens[1..]);
    }
  }

  /** The count depends on the word only through its lower-case form. */
  lemma CountIgnoresCase(g: State, w1: string, w2: string)
    requires Lower(w1) == Lower(w2)
    ensures CountWordInArticle(g, w1) == CountWordInArticle(g, w2)
  {
    if g.article.Some? {
      CountWordInTokensIgnoresCase(w1, w2, ArticleTokens(g.article.value));
    }
  }
}
