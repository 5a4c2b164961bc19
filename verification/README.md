# Cloze word-guessing game: game state engine

This project models the game state engine of a word-guessing game played on an
encyclopedia article. The article's words start out hidden. The player reveals
them by guessing. Two copies of the logic are modelled:

- `Game` in src/game.rs. It holds the parsed article, a set of normalised guesses
  and a selected guess. It loads articles, records guesses, decides per token
  whether it is blanked, shown or highlighted, and counts how often a word occurs.
- The `App` helpers in src/gui.rs. This older front-end keeps its own copy of
  title completion, word blanking, token concatenation and occurrence counting,
  and its own rule for entering a guess.

Files and modules:

- `wrappers.dfy` (`Wrappers`): `Option` and `Result`.
- `text.dfy` (`Text`): `Trim` is Rust's `str::trim`, using the Unicode
  White_Space set that `char::is_whitespace` uses. `Lower` stands for
  `to_lowercase`. `Underscores` is the run of `_` that draws a hidden word.
- `article.dfy` (`Article`): the parser's output types `Token`, `Section`,
  `ListItem` and `WikiArticle`. The parser itself is not part of this model;
  these types are the shapes src/game.rs and src/gui.rs match on. The module
  also gives the tokens of an article in document order (`ArticleTokens`),
  which is the reference the counts are proved against.
- `game.dfy` (`Game`): src/game.rs. Every operation is a pure function on an
  immutable `State` value (the source's `Game` struct). The source's `&mut self` methods return the new state.
- `gui.dfy` (`Gui`): src/gui.rs. Its helpers are methods with loops, mirroring
  the source. Each contract is stated against the `Game` definitions, so the
  proofs show the two copies agree.
- `scenarios.dfy` (`Scenarios`): small worked games. They cover counting,
  nested lists, the empty article, case-insensitive guessing, and the inputs
  where the two guess-entry rules differ.

Modelling choices:

- A list item (`Vec<Section>` in the source) is wrapped as
  `ListItem(sections: seq<Section>)`. Dafny cannot show termination through a
  bare `seq<seq<Section>>`. The wrapper changes nothing else.
- The network fetch and the parser are function-valued parameters of
  `LoadArticle` and `LoadRandomArticle`.
- Counts are `nat` values. Rust's `usize` cannot overflow here, because it
  counts tokens held in memory.
- `selectedGuess == ""` means "nothing selected", as in the source.

Behaviour of the code worth knowing, which the model keeps as written:

- `Game::guess` stores the empty string for input that is only whitespace
  (`Game.GuessAcceptsBlankInput`).
- src/gui.rs lower-cases a guess without trimming it and skips only the empty
  box, so the two copies store different guesses for some inputs
  (`Scenarios.GuessEntryDiffers`).
- Counting without an article: src/game.rs returns `None` and src/gui.rs panics.
  The model has `None`, and a `requires` on the src/gui.rs copy.

## Model

| member | source | states |
|---|---|---|
| Game.New | src/game.rs:23-29 | a new game has no article, no guesses and an empty selection |
| Game.NewGameHidesEverything | src/game.rs:23-29 | in a new game the title is not complete, counting gives `None`, and every non-empty word is blank |
| Game.LoadArticle | src/game.rs:31-47 | a successful download installs `parse(title, markup)` and empties guesses and selection, whatever the previous state; a failed download leaves the game unchanged and returns the same error |
| Game.LoadForgetsProgress | src/game.rs:36-40 | after a successful load the title is complete exactly when it has no words, and a non-empty word is blank exactly when the title is not complete |
| Game.LoadRandomArticle | src/game.rs:49-62 | a failed title lookup returns its error with the game unchanged; after a successful lookup the result is exactly that of loading the title from the English site, so a failed download returns the download's own error with the game unchanged; the result is `Ok` exactly when both the lookup and the download succeed, and then the game holds the parsed article with empty guesses and selection |
| Game.Guess | src/game.rs:64-66 | adds exactly `Normalise(raw)`, that is `Lower(Trim(raw))`, to the guesses; the article and the selection do not change |
| Game.GuessIdempotent | src/game.rs:64-66 | guessing the same input twice leaves the state as guessing it once |
| Game.GuessAcceptsBlankInput | src/game.rs:64-66 | input made only of whitespace is not rejected: the empty string becomes a guess |
| Game.TitleWordsGuessed | src/game.rs:70-78 | the early-exit scan over the title is true exactly when every `Word` in it, lower-cased, is a guess |
| Game.TitleComplete | src/game.rs:68-82 | false without an article; otherwise true exactly when every title `Word`, lower-cased, is a guess |
| Game.TitleWithoutWordsIsComplete | src/game.rs:68-82 | a loaded title with no `Word` tokens is complete, whatever the guesses |
| Game.GetTokenTreatment | src/game.rs:84-100 | a `NonWord` is always `Show`; a `Word` is `Highlight` exactly when it equals the selection up to case; it is `Blank` exactly when it is not highlighted, not guessed, and the title is not complete |
| Game.TitleCompleteRevealsAll | src/game.rs:89-93 | once the title is complete, no token anywhere is `Blank` |
| Game.GuessReveals | src/game.rs:84-93 | after guessing `raw`, a word equal to `Trim(raw)` up to case is not `Blank` |
| Game.GuessKeepsTreatment | src/game.rs:84-100 | a guess never hides a token: a token that was `Show` or `Highlight` keeps exactly that treatment |
| Game.NoSelectionHighlightsNothing | src/game.rs:87-88 | with the empty selection, no token with non-empty text is highlighted |
| Game.CountWordInTokens | src/game.rs:102-113 | the count is at most the number of `Word` tokens, and it is 0 exactly when no `Word` equals the word up to case |
| Game.CountWordInSections | src/game.rs:115-142 | the count over a section sequence equals the count over its tokens in document order, including every item of both kinds of list |
| Game.CountWordInSection | src/game.rs:119-139 | the count for one section equals the count over its tokens in document order |
| Game.CountWordInItems | src/game.rs:128-138 | the count over a list's items equals the count over their tokens in document order |
| Game.CountWordInArticle | src/game.rs:144-151 | `None` exactly when no article is loaded; otherwise the count over all article tokens, title first; at most the number of words; 0 exactly when no word matches |
| Game.CountIgnoresCase | src/game.rs:102-151 | two words with the same lower-case form get the same count |
| Gui.TitleComplete | src/gui.rs:42-56 | the loop returns true exactly when an article is loaded and every title `Word`, lower-cased, is a guess; this is the result of src/game.rs's `title_complete` on the same article and guesses |
| Gui.GetWord | src/gui.rs:58-65 | a word that is guessed, or whose title is complete, comes back unchanged; any other word comes back as underscores of the same length |
| Gui.HiddenWordLooksUnchanged | src/gui.rs:58-65 | a hidden word is drawn identical to itself only if it already consists of underscores |
| Gui.ConcatTokens | src/gui.rs:67-83 | the result is the in-order concatenation of the drawn tokens: non-words verbatim, words as `get_word` draws them |
| Gui.DrawnTextWhenComplete | src/gui.rs:67-83 | once the title is complete, the concatenation is the plain text of the tokens |
| Gui.DrawnTextLength | src/gui.rs:58-83 | blanking preserves length: the drawn text is as long as the plain text |
| Gui.DrawnAgreesWithTreatment | src/gui.rs:58-65 | for any selection, a token src/game.rs shows is drawn in clear here, and a token it blanks is drawn as underscores here |
| Gui.CountWordInTokens | src/gui.rs:168-179 | the loop computes the count of src/game.rs's `count_word_in_tokens` |
| Gui.CountWordInSections | src/gui.rs:181-208 | the loop computes the count of src/game.rs's `count_word_in_sections` |
| Gui.CountWordInSection | src/gui.rs:185-205 | the match on one section computes the same count as src/game.rs does for that section |
| Gui.CountWordInItems | src/gui.rs:194-204 | the loop over list items computes the same count as src/game.rs's loop over list items |
| Gui.CountWordInArticle | src/gui.rs:210-218 | needs a loaded article; the result is the value of src/game.rs's `count_word_in_article` |
| Gui.EnterGuess | src/gui.rs:246-249 | a non-empty entry adds its lower-cased, untrimmed text to the guesses and clears the box; an empty entry changes nothing |
| Gui.EnterGuessAgreesWithEngine | src/gui.rs:246-249 | for non-empty input with no surrounding whitespace, both copies store the same guess |
| Scenarios.GuessEntryDiffers | src/gui.rs:246-249 | for `" Rust"` this front-end stores `" rust"` and the engine stores `"rust"`; for `""` this front-end stores nothing and the engine stores `""` |
| Scenarios.RustIsCountedTwice | src/game.rs:144-151 | with title "Rust" and body "Rust is fast", "rust" is counted twice and "slow" not at all |
| Scenarios.NestedListIsCounted | src/game.rs:128-132 | a word in a paragraph inside an unordered list item is counted |
| Scenarios.EmptyArticleIsComplete | src/game.rs:68-82 | the empty article has a complete title and every count is 0 |
| Scenarios.GuessingIsCaseInsensitive | src/game.rs:84-93 | guessing "Rust" shows "RUST" and "rust", and, by completing the title "Rust", also the unguessed "is" |

## Left out

- Network fetching (`wikipedia_api::download_article`, `random_english_article`) is I/O. Its results enter as parameters.
- The article parser and tokenizer (`article_parser`) are not part of this model. `parse` is a parameter. No tokenizer invariant is assumed, such as non-empty tokens or the lossless split. `Game.NoSelectionHighlightsNothing` therefore asks for non-empty token text explicitly.
- Unicode lower-casing is not modelled. `Lower` maps only `A`-`Z`. The game lemmas use no property of `Lower` except that it maps the empty string to the empty string and every non-empty string to a non-empty string. Rust's `to_lowercase` has both properties. The literal computations in `Scenarios` are the only place the ASCII table is used.
- Gui.GetWord: the blank has one underscore per character. src/gui.rs:62 uses the byte length `len()`, so a non-ASCII word gets more underscores than it has characters. The newer front-end (src/egui.rs:88) counts characters, as the model does.
- Rendering is user-interface work and is not modelled. This covers src/egui.rs, src/dioxus.rs and the `show_*` functions of src/gui.rs: layout, fonts, colours, list numbering and heading levels.
- Selecting a guess is not modelled. The toggle at src/egui.rs:236-243 is inline UI event handling. Toggling twice does not always restore the earlier selection: with "a" selected, toggling "b" twice leaves nothing selected.
- `App::load_article` (src/gui.rs:23-40) is not modelled. Neither is the rest of `App`'s UI state: language, title box, toasts and the focus flag.
- src/main.rs is left out: the terminal menu and the debug printers are I/O.
- `BTreeSet` iteration order does not affect any modelled result, so guesses are a `set`.
