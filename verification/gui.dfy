/** The older front-end of src/gui.rs, which keeps its own copy of the game
    logic inside `App`. Its helpers are loops over the article; each is
    stated against the engine of src/game.rs, so the two copies are shown
    to agree (or, for guess entry, exactly where they differ). */
module Gui {
  import opened Wrappers
  import opened Text
  import opened Article
  import Game

  /** The part of `App` the game logic reads: the article, the guesses and
      the text of the guess box. Language, title box, toasts and focus are
      user-interface state. */
  datatype App = App(article: Option<WikiArticle>, guesses: set<string>, nextGuess: string)

  /** The engine state with the same article and guesses and nothing selected. */
  function AsGame(app: App): Game.State
  {
    Game.State(app.article, app.guesses, "")
  }

  /** A word is drawn in clear: it has been guessed, or the title is complete. */
  predicate Revealed(app: App, word: string)
  {
    Lower(word) in app.guesses || Game.TitleComplete(AsGame(app))
  }

  /** `App::title_complete`. */
  method TitleComplete(app: App) returns (r: bool)
    ensures r <==> app.article.Some? && Game.AllWordsGuessed(app.article.value.title, app.guesses)
    ensures r == Game.TitleComplete(AsGame(app))
  {
    if app.article.None? {
      return false;
    }
    var title := app.article.value.title;
    var i := 0;
    while i < |title|
      invariant 0 <= i <= |title|
      invariant forall j :: 0 <= j < i && title[j].Word? ==> Lower(title[j].text) in app.guesses
    {
      match title[i] {
        case Word(w) =>
          if Lower(w) !in app.guesses {
            return false;
          }
        case NonWord(_) =>
      }
      i := i + 1;
    }
    return true;
  }

  /** `App::get_word`: the word itself, or as many underscores as it is long. */
  method GetWord(app: App, word: string) returns (r: string)
    ensures Revealed(app, word) ==> r == word
    ensures !Revealed(app, word) ==> |r| == |word| && AllUnderscores(r)
  {
    var shown := Lower(word) in app.guesses;
    if !shown {
      shown := TitleComplete(app);
    }
    if shown {
      r := word;
    } else {
      r := "";
      while |r| < |word|
        invariant |r| <= |word|
        invariant AllUnderscores(r)
      {
        r := r + "_";
      }
    }
  }

  /** How `concat_tokens` draws one token. */
  function Drawn(app: App, t: Token): string
  {
    match t
    case Word(w) => if Revealed(app, w) then w else Underscores(|w|)
    case NonWord(w) => w
  }

  /** The in-order concatenation of the drawn tokens. */
  function DrawnText(app: App, tokens: seq<Token>): string
  {
    if tokens == [] then "" else Drawn(app, tokens[0]) + DrawnText(app, tokens[1..])
  }

  lemma {:induction false} DrawnTextAppend(app: App, a: seq<Token>, b: seq<Token>)
    ensures DrawnText(app, a + b) == DrawnText(app, a) + DrawnText(app, b)
  {
    if a == [] {
      assert a + b == b;
    } else {
      assert (a + b)[1..] == a[1..] + b;
      DrawnTextAppend(app, a[1..], b);
    }
  }

  /** `App::concat_tokens`: non-words verbatim, words through `get_word`. */
  method ConcatTokens(app: App, tokens: seq<Token>) returns (r: string)
    ensures r == DrawnText(app, tokens)
  {
    r := "";
    var i := 0;
    while i < |tokens|
      invariant 0 <= i <= |tokens|
      invariant r == DrawnText(app, tokens[..i])
    {
      assert tokens[..i + 1] == tokens[..i] + [tokens[i]];
      DrawnTextAppend(app, tokens[..i], [tokens[i]]);
      match tokens[i] {
        case Word(w) =>
          var piece := GetWord(app, w);
          assert piece == Drawn(app, tokens[i]);
          r := r + piece;
        case NonWord(w) =>
          r := r + w;
      }
      i := i + 1;
    }
    assert tokens[..|tokens|] == tokens;
  }

  /** Once the title is complete the text is drawn exactly as written. */
  lemma {:induction false} DrawnTextWhenComplete(app: App, tokens: seq<Token>)
    requires Game.TitleComplete(AsGame(app))
    ensures DrawnText(app, tokens) == PlainText(tokens)
  {
    if tokens != [] {
      DrawnTextWhenComplete(app, tokens[1..]);
    }
  }

  /** Blanking never changes the length of the drawn text. */
  lemma {:induction false} DrawnTextLength(app: App, tokens: seq<Token>)
    ensures |DrawnText(app, tokens)| == |PlainText(tokens)|
  {
    if tokens != [] {
      DrawnTextLength(app, tokens[1..]);
    }
  }

  /** A hidden word is drawn as itself only when it is already all underscores. */
  lemma HiddenWordLooksUnchanged(app: App, w: string)
    requires !Revealed(app, w)
    ensures Drawn(app, Word(w)) == w <==> AllUnderscores(w)
  {
  }

  /** The two copies agree token by token: what the engine shows, this
      front-end draws in clear; what the engine blanks, it draws as underscores. */
  lemma DrawnAgreesWithTreatment(app: App, selected: string, t: Token)
    ensures var g := Game.State(app.article, app.guesses, selected);
            && (Game.GetTokenTreatment(g, t) == Game.Show ==> Drawn(app, t) == t.text)
            && (Game.GetTokenTreatment(g, t) == Game.Blank ==> Drawn(app, t) == Underscores(|t.text|))
  {
  }

  /** `App::count_word_in_tokens`. */
  method CountWordInTokens(word: string, tokens: seq<Token>) returns (n: nat)
    ensures n == Game.CountWordInTokens(word, tokens)
  {
    n := 0;
    var i := 0;
    while i < |tokens|
      invariant 0 <= i <= |tokens|
      invariant n == Game.CountWordInTokens(word, tokens[..i])
    {
      assert tokens[..i + 1] == tokens[..i] + [tokens[i]];
      Game.CountWordInTokensAppend(word, tokens[..i], [tokens[i]]);
      match tokens[i] {
        case Word(w) =>
          if Lower(w) == Lower(word) {
            n := n + 1;
          }
        case NonWord(_) =>
      }
      i := i + 1;
    }
    assert tokens[..|tokens|] == tokens;
  }

  /** `App::count_word_in_sections`. */
  method CountWordInSections(word: string, sections: seq<Section>) returns (n: nat)
    ensures n == Game.CountWordInSections(word, sections)
    decreases sections
  {
    n := 0;
    var i := 0;
    while i < |sections|
      invariant 0 <= i <= |sections|
      invariant n == Game.CountWordInSections(word, sections[..i])
      decreases |sections| - i
    {
      var c := CountWordInSection(word, sections[i]);
      assert sections[..i + 1] == sections[..i] + [sections[i]];
      Game.CountWordInSectionsSnoc(word, sections[..i], sections[i]);
      n := n + c;
      i := i + 1;
    }
    assert sections[..|sections|] == sections;
  }

  /** The body of the loop in `App::count_word_in_sections`, for one section. */
  method CountWordInSection(word: string, s: Section) returns (c: nat)
    ensures c == Game.CountWordInSection(word, s)
    decreases s
  {
    match s {
      case Heading(_, tokens) =>
        c := CountWordInTokens(word, tokens);
      case Paragraph(tokens) =>
        c := CountWordInTokens(word, tokens);
      case UnorderedList(items) =>
        c := CountWordInItems(word, items);
      case OrderedList(items) =>
        c := CountWordInItems(word, items);
    }
  }

  /** The loop over list items inside `App::count_word_in_sections`. */
  method CountWordInItems(word: string, items: seq<ListItem>) returns (n: nat)
    ensures n == Game.CountWordInItems(word, items)
    decreases items
  {
    n := 0;
    var j := 0;
    while j < |items|
      invariant 0 <= j <= |items|
      invariant n == Game.CountWordInItems(word, items[..j])
      decreases |items| - j
    {
      var c := CountWordInSections(word, items[j].sections);
      assert items[..j + 1] == items[..j] + [items[j]];
      Game.CountWordInItemsSnoc(word, items[..j], items[j]);
      n := n + c;
      j := j + 1;
    }
    assert items[..|items|] == items;
  }

  /** `App::count_word_in_article`, which panics without an article. */
  method CountWordInArticle(app: App, word: string) returns (n: nat)
    requires app.article.Some?
    ensures Game.CountWordInArticle(AsGame(app), word) == Some(n)
  {
    var a := app.article.value;
    var inTitle := CountWordInTokens(word, a.title);
    var inContent := CountWordInSections(word, a.content);
    n := inTitle + inContent;
  }

  /** Pressing Enter in the guess box: a non-empty entry is stored lower-cased
      but not trimmed, and the box is cleared; an empty one changes nothing. */
  function EnterGuess(app: App): (r: App)
    ensures r.article == app.article
    ensures app.nextGuess == "" ==> r == app
    ensures app.nextGuess != "" ==> r.guesses == app.guesses + {Lower(app.nextGuess)} && r.nextGuess == ""
  {
    if app.nextGuess != "" then
      app.(guesses := app.guesses + {Lower(app.nextGuess)}, nextGuess := "")
    else
      app
  }

  /** For non-empty input without surrounding whitespace, guess entry here
      stores what the engine's `guess` stores. */
  lemma EnterGuessAgreesWithEngine(app: App)
    requires app.nextGuess != ""
    requires Trim(app.nextGuess) == app.nextGuess
    ensures EnterGuess(app).guesses == Game.Guess(AsGame(app), app.nextGuess).guesses
  {
  }
}
