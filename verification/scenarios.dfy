/** Small concrete games: worked games for counting, nested lists, the
    empty article and case-insensitive guessing, and the inputs where the
    two copies of guess entry disagree. */
module Scenarios {
  import opened Wrappers
  import opened Text
  import opened Article
  import Game
  import Gui

  // Lower-casing and trimming of the literals used below.

  lemma LowerRust()
    ensures Lower("Rust") == "rust" && Lower("RUST") == "rust" && Lower("rust") == "rust"
    ensures Lower(" Rust") == " rust"
  {
    var a, b, c, d := Lower("Rust"), Lower("RUST"), Lower("rust"), Lower(" Rust");
    assert a[0] == 'r' && a[1] == 'u' && a[2] == 's' && a[3] == 't';
    assert b[0] == 'r' && b[1] == 'u' && b[2] == 's' && b[3] == 't';
    assert c[0] == 'r' && c[1] == 'u' && c[2] == 's' && c[3] == 't';
    assert d[0] == ' ' && d[1] == 'r' && d[2] == 'u' && d[3] == 's' && d[4] == 't';
  }

  lemma LowerOthers()
    ensures Lower("is") == "is" && Lower("fast") == "fast" && Lower("slow") == "slow"
    ensures Lower("") == ""
  {
    var a, b, c := Lower("is"), Lower("fast"), Lower("slow");
    assert a[0] == 'i' && a[1] == 's';
    assert b[0] == 'f' && b[1] == 'a' && b[2] == 's' && b[3] == 't';
    assert c[0] == 's' && c[1] == 'l' && c[2] == 'o' && c[3] == 'w';
  }

  lemma TrimRust()
    ensures Trim("Rust") == "Rust" && Trim(" Rust") == "Rust" && Trim("") == ""
  {
    assert !IsWhitespace('R') && !IsWhitespace('t');
    assert TrimStart("Rust") == "Rust";
    assert TrimStart(" Rust") == "Rust";
  }

  /** Title "Rust", body "Rust is fast". */
  function RustArticle(): WikiArticle
  {
    WikiArticle([Word("Rust")],
                [Paragraph([Word("Rust"), NonWord(" "), Word("is"), NonWord(" "), Word("fast")])])
  }

  function Loaded(a: WikiArticle): Game.State
  {
    Game.State(Some(a), {}, "")
  }

  lemma RustIsCountedTwice()
    ensures Game.CountWordInArticle(Loaded(RustArticle()), "rust") == Some(2)
    ensures Game.CountWordInArticle(Loaded(RustArticle()), "slow") == Some(0)
  {
    LowerRust();
    LowerOthers();
  }

  /** A word inside a list item inside an unordered list is counted. */
  lemma NestedListIsCounted()
    ensures Game.CountWordInArticle(
              Loaded(WikiArticle([], [UnorderedList([ListItem([Paragraph([Word("fox")])])])])),
              "fox") == Some(1)
  {
  }

  /** The empty article: its title is complete and nothing is counted. */
  lemma EmptyArticleIsComplete(word: string)
    ensures Game.TitleComplete(Loaded(WikiArticle([], [])))
    ensures Game.CountWordInArticle(Loaded(WikiArticle([], [])), word) == Some(0)
  {
  }

  /** Guessing "Rust" reveals "RUST" and "rust", and because it completes the
      title it also reveals the unguessed "is". */
  lemma GuessingIsCaseInsensitive()
    ensures var g := Game.Guess(Loaded(RustArticle()), "Rust");
            && Game.GetTokenTreatment(g, Word("RUST")) == Game.Show
            && Game.GetTokenTreatment(g, Word("rust")) == Game.Show
            && Game.GetTokenTreatment(g, Word("is")) == Game.Show
  {
    TrimRust();
    LowerRust();
    LowerOthers();
  }

  /** The engine trims before storing a guess and stores even an empty one;
      the older front-end stores the untrimmed text and skips empty input. */
  lemma GuessEntryDiffers()
    ensures Gui.EnterGuess(Gui.App(None, {}, " Rust")).guesses == {" rust"}
    ensures Game.Guess(Game.New(), " Rust").guesses == {"rust"}
    ensures Gui.EnterGuess(Gui.App(None, {}, "")).guesses == {}
    ensures Game.Guess(Game.New(), "").guesses == {""}
  {
    TrimRust();
    LowerRust();
    LowerOthers();
  }
}
