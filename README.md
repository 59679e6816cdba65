# Hangman game state, in Dafny

This project models the game-state machine of a server-side hangman game
("Impiccato"). A player, or a pair of players, guesses single characters or the
whole secret phrase. Each wrong attempt advances a stage counter, and the sixth
wrong attempt loses the game. The session stores these fields:

- the game mode;
- the phrase;
- the stage;
- the status (playing, won or lost);
- the characters tried so far;
- the start time;
- the number of attempts;
- the duration of a finished game.

Two views are derived from the session. The redacted phrase shows spaces and
the characters already tried, and every other character as `_`. The progress
image is numbered `stage + 1`.

The model has two modules:

- `Text` (`text.dfy`) holds ASCII lower-casing, which stands for `strtolower`.
  It also holds the decimal rendering of the image number inside the image path.
- `Hangman` (`hangman.dfy`) holds the status type, the specification of the
  redacted phrase (`HiddenChar`, `Hidden`, `AllRevealed`) and the class
  `Session`. The class fields are the session fields, and its methods are the
  game operations:
  - `Initialize` overwrites every field it resets.
  - `IsPlaying`, `ImageIndex` and `CondemnedImage` are read-only functions.
  - `HiddenPhrase` builds the redacted phrase in a loop, one character at a time.
  - `GuessPhrase` and `GuessLetter` update the fields step by step, in the
    source's order.

The guess methods do not require any particular status, because the source
checks none: their contracts give the new state for every old state. The class
invariant `Valid()` holds after `Initialize` and after every guess made while
the game is being played. A guess made after the game has ended can break it:
a seventh wrong phrase guess reaches stage 7, and a wrong phrase guess after a
win at stage 5 turns the game to lost. `Valid()` says the following:

- the stage is at most 6;
- stage 6 means the game is lost;
- a finished game has a duration;
- the tried characters are lower-case and contain no repeats;
- the stage and the number of tried characters never exceed the attempts.

The methods `PhraseGuesses`, `LetterGuesses` and `SixWrongLetters` are clients.
Using only the contracts, they show three scenarios: a right and a wrong phrase
guess, a repeated letter that changes nothing, and six wrong letters that lose
the game.

The clock, the random choice and the dictionary are parameters:

- `now` is the clock reading, an integer.
- `pick` is the index the random choice yields.
- `dictionary` is the list of candidate phrases.

Behaviour of the code that the model keeps:

- The code raises no errors. Neither guess checks the status. Any mode other
  than "singleplayer" takes the supplied phrase as it is, even an empty one.
- A repeated letter guess returns `null`, modelled as `None`.
- The tried characters are a list that grows at the end. They stay free of
  repeats only because of the guard at the start of a letter guess.
- Starting a new game does not clear the duration of the previous one.
- The win test of a letter guess compares the lower-cased redacted phrase with
  the lower-cased phrase. So a `_` in the phrase counts as revealed without
  being tried (`PlaceholderCountsAsRevealed`).

## Model

| member | source | states |
|---|---|---|
| Text.LowerStrAt | logic.php:92 | `LowerStr`, which stands for every `strtolower` of the source, keeps the string's length and maps each position to its ASCII lower-case character |
| Text.LowerStrEqual | logic.php:130-133 | Two strings are equal after lower-casing if and only if they have the same length and agree at every position up to case |
| Text.InLowerStr | logic.php:165 | A character occurs in the lower-cased phrase if and only if some position of the phrase lower-cases to it |
| Text.DigitChar | logic.php:125 | The digit written for a value below ten is a character '0'..'9' whose distance from '0' is that value |
| Text.Decimal | logic.php:125 | The image number is written in digits only, with no leading zero, and as a single digit below ten |
| Text.DecimalRoundTrip | logic.php:125 | Reading the written number back gives the number again |
| Hangman.HiddenAt | logic.php:91-117 | The reference redaction `Hidden` has the phrase's length, and each position is `HiddenChar` of the phrase's character there: a space, the character as written when its lower-case form was tried, or `_` |
| Hangman.HiddenShows | logic.php:96-115 | At each position, a space stays a space, a character whose lower-case form was tried is shown with its original case, and anything else becomes `_` |
| Hangman.HiddenUntried | logic.php:87-117 | Before any character is tried, every non-space character is `_` and every space is kept |
| Hangman.BabboNatale | logic.php:87-88 | "Babbo Natale" redacts to "_____ ______" before any guess and to "B_bb_ ______" after 'b' |
| Hangman.WinTest | logic.php:177 | The lower-cased redacted phrase equals the lower-cased phrase if and only if every non-space position was tried in lower-case or holds `_` |
| Hangman.PlaceholderCountsAsRevealed | logic.php:177 | A `_` in the phrase passes the win test untried, but an untried letter does not |
| Hangman.RecordFresh | logic.php:158-167 | Adding a character not yet tried keeps the tried characters free of repeats and lower-case |
| Hangman.Session.constructor | logic.php:74-80 | A session in which no game was started is not playing and satisfies the invariant |
| Hangman.Session.Initialize | logic.php:19-72 | Sets the mode. The phrase is the chosen dictionary entry in "singleplayer" mode and the supplied phrase otherwise. Resets stage, attempts and tried characters to zero and empty, sets the status to playing, image 1 and the start time to now. Leaves the old duration. Establishes the invariant |
| Hangman.Session.IsPlaying | logic.php:74-80 | True exactly when the status is playing; in a valid session the stage is then below 6 |
| Hangman.Session.ImageIndex | logic.php:125 | The image number is stage + 1, between 1 and 7 in a valid session |
| Hangman.Session.CondemnedImage | logic.php:120-126 | The path is "images/stages/" + number + ".png". The number reads back as stage + 1 and is the single digit '1'..'7' for stages 0..6 |
| Hangman.Session.HiddenPhrase | logic.php:82-118 | The loop builds exactly the redacted phrase of the session's phrase and tried characters, and the result has the phrase's length. The loop's second test, that the character occurs in the lower-cased phrase, always holds |
| Hangman.Session.Solved | logic.php:177 | The win test of a letter guess holds exactly when every non-space position is revealed |
| Hangman.Session.GuessPhrase | logic.php:128-151 | Right if and only if the guess equals the phrase up to case, spaces included. Attempts always +1; stage +1 exactly on a wrong guess. Status is lost at stage 6, else won on a right guess, else unchanged. The duration is stamped on winning or at stage 6. Other fields unchanged. During a game the invariant is kept and the duration is stamped exactly when the game ends |
| Hangman.Session.GuessLetter | logic.php:153-183 | A letter already tried in lower case returns nothing and changes nothing. A fresh letter returns whether it occurs in the phrase up to case, adds one attempt, appends exactly its lower-case form, and adds one stage exactly when it does not occur. Then the game is lost at stage 6, else won when everything is revealed. The duration is stamped in either case. During a game the invariant is kept and the duration is stamped exactly when the game ends |

## Left out

- The page markup, the modals and the session start in `index.php` are presentation only.
- The `debug.php` include is not part of this model.
- `generate_random_phrase`, the `dati.php` dictionary and `array_rand` are reduced to parameters. The dictionary is a list of phrases, and the random key is the index `pick`, which must lie in the list in "singleplayer" mode. Uniformity of the choice is not modelled.
- `microtime(true)` and floating-point durations: the clock is the integer parameter `now`, and the duration is `now - startTime`.
- Hangman.Session.GuessPhrase: does not model two clock readings in one call. From a session that is already at stage 6, a right guess stamps the duration twice with two readings; the model uses one `now`.
- The `$_SESSION` store is modelled as the fields of one object. Session identifiers, storage expiry and concurrent requests are not modelled.
- PHP strings are byte strings, and a Dafny `char` here stands for one byte, so the model is faithful for ASCII phrases. For other text it is not: PHP renders a UTF-8 "è" as two `_`, and stores a guessed "è" as a two-byte entry that the one-byte comparison in `get_hidden_phrase` never matches, so PHP never reveals it; the model treats it as one character and reveals it.
- Hangman.Session.GuessLetter: the letter is one character. PHP's behaviour for an empty or multi-character string (`strpos` with such a needle) is not modelled.
- PHP's loose comparison in `in_array` and locale or multibyte lower-casing are not modelled. Characters compare exactly, and lower-casing is ASCII `A`-`Z` to `a`-`z`.
- Fields that were never set before the first game (PHP's unset keys) are given default values by the constructor. Only the unset status is distinguished, as `NotStarted`, because `is_playing` tests for it.
