/** The hangman game-state machine: one player's session, the redacted view of
    the secret phrase, the progress image, and the two kinds of guess. */
module Hangman {
  import opened Text

  datatype Option<T> = None | Some(value: T)

  /** The session's status. `NotStarted` stands for a session in which no game
      was ever initialized, so that the status key is not set at all. */
  datatype Status = NotStarted | Playing | Won | Lost

  /** The number of wrong attempts that loses the game. */
  const MaxStage: nat := 6

  /** The redacted form of one character of the phrase: a space stays a space,
      a character whose lower-case form has been tried is shown as written, and
      anything else becomes the placeholder '_'. */
  function HiddenChar(c: char, tried: seq<char>): char
  {
    if c == ' ' then ' ' else if LowerChar(c) in tried then c else '_'
  }

  /** The redacted phrase, built character by character from the front. */
  function Hidden(phrase: string, tried: seq<char>): string
  {
    if phrase == [] then [] else [HiddenChar(phrase[0], tried)] + Hidden(phrase[1..], tried)
  }

  /** The redacted phrase has the phrase's length, and each of its positions is
      the redaction of the phrase's character there. */
  lemma {:induction false} HiddenAt(phrase: string, tried: seq<char>)
    ensures |Hidden(phrase, tried)| == |phrase|
    ensures forall i :: 0 <= i < |phrase| ==>
              Hidden(phrase, tried)[i] == HiddenChar(phrase[i], tried)
  {
    if phrase != [] {
      HiddenAt(phrase[1..], tried);
    }
  }

  /** Position by position, what the redacted phrase shows: spaces are kept,
      tried characters are revealed with their original case, all else is '_'. */
  lemma HiddenShows(phrase: string, tried: seq<char>, i: nat)
    requires i < |phrase|
    ensures |Hidden(phrase, tried)| == |phrase|
    ensures phrase[i] == ' ' ==> Hidden(phrase, tried)[i] == ' '
    ensures phrase[i] != ' ' && LowerChar(phrase[i]) in tried ==> Hidden(phrase, tried)[i] == phrase[i]
    ensures phrase[i] != ' ' && LowerChar(phrase[i]) !in tried ==> Hidden(phrase, tried)[i] == '_'
  {
    HiddenAt(phrase, tried);
  }

  /** Before any character is tried, every non-space character is hidden and
      every space is kept. */
  lemma {:induction false} HiddenUntried(phrase: string)
    ensures |Hidden(phrase, [])| == |phrase|
    ensures forall i :: 0 <= i < |phrase| ==>
              Hidden(phrase, [])[i] == if phrase[i] == ' ' then ' ' else '_'
  {
    HiddenAt(phrase, []);
  }

  /** The game's own example, "Babbo Natale": all hidden before any guess, the
      three b's revealed with their case after 'b'. The tried characters are a
      parameter rather than literals: with every argument a literal, the verifier
      evaluates `Hidden` call by call over all twelve characters, which exceeds
      its resource limit, whereas here `HiddenAt` gives each position directly. */
  lemma BabboNatale(tried: seq<char>)
    ensures tried == [] ==> Hidden("Babbo Natale", tried) == "_____ ______"
    ensures tried == ['b'] ==> Hidden("Babbo Natale", tried) == "B_bb_ ______"
  {
    HiddenAt("Babbo Natale", tried);
  }

  /** Every non-space position of the phrase is revealed by the tried characters,
      or holds the placeholder character itself. */
  ghost predicate AllRevealed(phrase: string, tried: seq<char>)
  {
    forall i :: 0 <= i < |phrase| && phrase[i] != ' ' ==>
      LowerChar(phrase[i]) in tried || LowerChar(phrase[i]) == '_'
  }

  /** The win test of a letter guess, the lower-cased redacted phrase compared
      with the lower-cased phrase, holds exactly when everything is revealed. */
  lemma WinTest(phrase: string, tried: seq<char>)
    ensures LowerStr(Hidden(phrase, tried)) == LowerStr(phrase) <==> AllRevealed(phrase, tried)
  {
    var h := Hidden(phrase, tried);
    HiddenAt(phrase, tried);
    LowerStrEqual(h, phrase);
    if AllRevealed(phrase, tried) {
      forall i | 0 <= i < |h| ensures LowerChar(h[i]) == LowerChar(phrase[i]) {
        assert h[i] == HiddenChar(phrase[i], tried);
      }
    }
    if LowerStr(h) == LowerStr(phrase) {
      forall i | 0 <= i < |phrase| && phrase[i] != ' '
        ensures LowerChar(phrase[i]) in tried || LowerChar(phrase[i]) == '_'
      {
        assert LowerChar(h[i]) == LowerChar(phrase[i]);
      }
    }
  }

  /** Because of that second disjunct, a phrase made of placeholders and spaces
      counts as revealed even though nothing was tried. */
  lemma PlaceholderCountsAsRevealed()
    ensures AllRevealed("a _", ['a'])
    ensures !AllRevealed("a _", [])
    ensures AllRevealed("_", [])
  {
    assert LowerChar("a _"[0]) == 'a';
  }

  /** No character occurs twice. */
  ghost predicate Distinct(s: seq<char>)
  {
    forall i, j :: 0 <= i < j < |s| ==> s[i] != s[j]
  }

  /** Recording a fresh lower-case character keeps the tried characters
      lower-case and free of repeats. */
  lemma RecordFresh(tried: seq<char>, c: char)
    requires c !in tried && IsLower(c)
    ensures Distinct(tried) ==> Distinct(tried + [c])
    ensures (forall i :: 0 <= i < |tried| ==> IsLower(tried[i])) ==>
              forall i :: 0 <= i < |tried + [c]| ==> IsLower((tried + [c])[i])
  {
  }

  /** One player's game, the fields of the server-side session. */
  class Session {
    var gamemode: string
    var phrase: string
    var stage: nat
    var status: Status
    var triedChars: seq<char>
    var startTime: int
    var attempts: nat
    var duration: Option<int>

    /** The invariant that holds after `Initialize` and after every guess made
        while the game is being played. A guess made after the game has ended
        can break it (a seventh wrong phrase guess reaches stage 7), because
        neither guess checks the status. */
    ghost predicate Valid()
      reads this
    {
      && stage <= MaxStage
      && (stage == MaxStage ==> status == Lost)
      && (status == Won || status == Lost ==> duration.Some?)
      && (status == NotStarted ==> stage == 0 && attempts == 0 && triedChars == [])
      && (forall i :: 0 <= i < |triedChars| ==> IsLower(triedChars[i]))
      && Distinct(triedChars)
      && stage <= attempts
      && |triedChars| <= attempts
    }

    /** A session in which no game has been started yet. */
    constructor ()
      ensures Valid()
      ensures status == NotStarted && !IsPlaying()
      ensures gamemode == "" && phrase == "" && stage == 0 && triedChars == []
      ensures startTime == 0 && attempts == 0 && duration == None
    {
      gamemode, phrase, stage, status := "", "", 0, NotStarted;
      triedChars, startTime, attempts, duration := [], 0, 0, None;
    }

    /** Starts a new game, overwriting the previous one. In "singleplayer" mode
        the phrase is the dictionary entry the random choice `pick` selects and
        the supplied phrase is ignored; `now` is the clock reading. */
    method Initialize(mode: string, given: string, dictionary: seq<string>, pick: nat, now: int)
      requires mode == "singleplayer" ==> pick < |dictionary|
      modifies this
      ensures Valid()
      ensures gamemode == mode
      ensures phrase == if mode == "singleplayer" then dictionary[pick] else given
      ensures stage == 0 && attempts == 0 && triedChars == []
      ensures status == Playing && IsPlaying()
      ensures ImageIndex() == 1
      ensures startTime == now
      ensures duration == old(duration)
    {
      var p := given;
      if mode == "singleplayer" {
        p := dictionary[pick];
      }
      gamemode := mode;
      phrase := p;
      stage := 0;
      status := Playing;
      triedChars := [];
      startTime := now;
      attempts := 0;
    }

    /** Whether a game is in progress: started, and neither won nor lost. */
    function IsPlaying(): (b: bool)
      reads this
      ensures b <==> status == Playing
      ensures b && Valid() ==> stage < MaxStage
    {
      status == Playing
    }

    /** The number of the progress image for the current stage. */
    function ImageIndex(): (k: nat)
      reads this
      ensures k == stage + 1
      ensures Valid() ==> 1 <= k <= MaxStage + 1
    {
      stage + 1
    }

    /** The path of the progress image; for the stages 0..6 of a game it is one
        of "images/stages/1.png" .. "images/stages/7.png". */
    function CondemnedImage(): (r: string)
      reads this
      ensures stage <= MaxStage ==>
                r == "images/stages/" + [DigitChar(stage + 1)] + ".png"
      ensures |r| >= 19 && r[..14] == "images/stages/" && r[|r| - 4..] == ".png"
      ensures DecimalValue(r[14..|r| - 4]) == ImageIndex()
    {
      DecimalRoundTrip(stage + 1);
      var r := "images/stages/" + Decimal(stage + 1) + ".png";
      assert r[14..|r| - 4] == Decimal(stage + 1);
      r
    }

    /** The redacted phrase, built in a loop. The loop also checks that the
        character occurs in the lower-cased phrase, which always holds since it
        was taken from there. */
    method HiddenPhrase() returns (h: string)
      ensures h == Hidden(phrase, triedChars)
      ensures |h| == |phrase|
    {
      var lowerPhrase := LowerStr(phrase);
      LowerStrAt(phrase);
      h := "";
      var i := 0;
      while i < |phrase|
        invariant 0 <= i <= |phrase|
        invariant |h| == i
        invariant forall k :: 0 <= k < i ==> h[k] == HiddenChar(phrase[k], triedChars)
      {
        var c := lowerPhrase[i];
        LowerCharSpace(phrase[i]);
        if c == ' ' {
          h := h + " ";
        } else if c in triedChars && c in lowerPhrase {
          h := h + [phrase[i]];
        } else {
          h := h + "_";
        }
        i := i + 1;
      }
      HiddenAt(phrase, triedChars);
    }

    /** The win test of a letter guess: the redacted phrase, lower-cased, equals
        the lower-cased phrase. */
    method Solved() returns (b: bool)
      ensures b <==> AllRevealed(phrase, triedChars)
    {
      var h := HiddenPhrase();
      b := LowerStr(h) == LowerStr(phrase);
      WinTest(phrase, triedChars);
    }

    /** A guess of the whole phrase, compared case-insensitively. Every call is an
        attempt; a right guess wins, a wrong one advances the stage and loses on
        reaching the sixth. */
    method GuessPhrase(guess: string, now: int) returns (right: bool)
      modifies this
      ensures right <==> LowerStr(guess) == LowerStr(phrase)
      ensures right <==> (|guess| == |phrase| &&
                          forall i :: 0 <= i < |guess| ==> LowerChar(guess[i]) == LowerChar(phrase[i]))
      ensures attempts == old(attempts) + 1
      ensures stage == if right then old(stage) else old(stage) + 1
      ensures status == if stage == MaxStage then Lost else if right then Won else old(status)
      ensures duration == if right || stage == MaxStage then Some(now - startTime) else old(duration)
      ensures gamemode == old(gamemode) && phrase == old(phrase) && startTime == old(startTime)
      ensures triedChars == old(triedChars)
      ensures old(status) == Playing ==>
                duration == if status == Playing then old(duration) else Some(now - startTime)
      ensures old(Valid() && status == Playing) ==> Valid()
    {
      LowerStrEqual(guess, phrase);
      right := LowerStr(guess) == LowerStr(phrase);
      attempts := attempts + 1;
      if right {
        status := Won;
        duration := Some(now - startTime);
      } else {
        stage := stage + 1;
      }
      if stage == MaxStage {
        status := Lost;
        duration := Some(now - startTime);
      }
    }

    /** A guess of one character. A character already tried changes nothing and
        gives no answer; a fresh one is an attempt, is recorded in lower case,
        advances the stage when it does not occur in the phrase, and then the
        game is lost at the sixth stage or else won once everything is revealed. */
    method GuessLetter(letter: char, now: int) returns (right: Option<bool>)
      modifies this
      ensures LowerChar(letter) in old(triedChars) ==>
                right == None &&
                attempts == old(attempts) && stage == old(stage) &&
                triedChars == old(triedChars) && status == old(status) &&
                duration == old(duration)
      ensures LowerChar(letter) !in old(triedChars) ==>
                && right == Some(exists i :: 0 <= i < |phrase| && LowerChar(phrase[i]) == LowerChar(letter))
                && attempts == old(attempts) + 1
                && triedChars == old(triedChars) + [LowerChar(letter)]
                && stage == (if right.value then old(stage) else old(stage) + 1)
                && status == (if stage == MaxStage then Lost
                              else if AllRevealed(phrase, triedChars) then Won
                              else old(status))
                && duration == (if stage == MaxStage || AllRevealed(phrase, triedChars)
                                then Some(now - startTime) else old(duration))
      ensures gamemode == old(gamemode) && phrase == old(phrase) && startTime == old(startTime)
      ensures old(status) == Playing ==>
                duration == if status == Playing then old(duration) else Some(now - startTime)
      ensures old(Valid() && status == Playing) ==> Valid()
    {
      var userLetter := LowerChar(letter);
      var gamePhrase := LowerStr(phrase);
      if userLetter in triedChars {
        return None;
      }
      attempts := attempts + 1;
      var isRight := userLetter in gamePhrase;
      assert isRight <==> exists i :: 0 <= i < |phrase| && LowerChar(phrase[i]) == userLetter by {
        InLowerStr(userLetter, phrase);
      }
      RecordFresh(triedChars, userLetter) by {
        LowerCharIsLower(letter);
      }
      triedChars := triedChars + [userLetter];
      if !isRight {
        stage := stage + 1;
      }
      if stage == MaxStage {
        status := Lost;
        duration := Some(now - startTime);
      } else {
        var wins := Solved();
        if wins {
          status := Won;
          duration := Some(now - startTime);
        }
      }
      right := Some(isRight);
    }
  }

  /** Clients that start a game and guess while it is being played. */
  method PhraseGuesses(t0: int)
  {
    var s := new Session();
    s.Initialize("multiplayer", "HELLO", [], 0, t0);
    var ok := s.GuessPhrase("hello", t0 + 5);
    assert ok && s.status == Won && s.attempts == 1 && s.stage == 0 && s.duration == Some(5);

    s.Initialize("multiplayer", "HELLO", [], 0, t0);
    ok := s.GuessPhrase("world", t0 + 5);
    assert !ok && s.stage == 1 && s.status == Playing;
  }

  method LetterGuesses(t0: int)
  {
    var s := new Session();
    s.Initialize("singleplayer", "", ["CIAO"], 0, t0);
    assert s.phrase == "CIAO";
    var r := s.GuessLetter('c', t0 + 1);
    assert r == Some(true) && s.stage == 0 && s.attempts == 1 && s.status == Playing by {
      assert LowerChar(s.phrase[0]) == 'c';
      assert !AllRevealed(s.phrase, s.triedChars) by {
        assert LowerChar(s.phrase[1]) == 'i';
      }
    }
    r := s.GuessLetter('C', t0 + 2);
    assert r == None && s.attempts == 1 && s.triedChars == ['c'];
  }

  /** Six distinct wrong letters lose the game on the sixth. */
  method SixWrongLetters(t0: int)
  {
    var s := new Session();
    s.Initialize("singleplayer", "", ["CIAO"], 0, t0);
    var wrong := "xyzwvu";
    var k := 0;
    while k < |wrong|
      invariant 0 <= k <= |wrong|
      invariant s.phrase == "CIAO" && s.startTime == t0
      invariant s.triedChars == wrong[..k]
      invariant s.stage == k && s.attempts == k
      invariant s.status == if k == 6 then Lost else Playing
      invariant k == 6 ==> s.duration == Some(10)
    {
      assert LowerChar(wrong[k]) == wrong[k] && wrong[k] !in s.triedChars;
      assert forall i :: 0 <= i < |s.phrase| ==> LowerChar(s.phrase[i]) != wrong[k];
      assert wrong[..k + 1] == wrong[..k] + [wrong[k]];
      var r := s.GuessLetter(wrong[k], t0 + 10);
      assert !AllRevealed(s.phrase, s.triedChars) by {
        assert LowerChar(s.phrase[1]) == 'i';
      }
      k := k + 1;
    }
    assert s.status == Lost && s.duration == Some(10);
  }
}
