/** The game's state and the three things that change it: a key press, an
    animation frame and a restart. Random choices arrive as parameters. */
module KanaGame {
  import opened KanaData
  import opened Targeting
  import opened EscapeSweep

  const MAX_ESCAPES: int := 10
  /** Milliseconds that must pass, strictly, between two spawns. */
  const KANA_SPAWN_RATE: int := 1000
  /** Points for each kana destroyed. */
  const SCORE_PER_KILL: int := 10

  /** A key value naming a single ASCII letter, either case. Such a key is
      never one of the named keys the handler tests first. */
  function IsLetterKey(key: string): (r: bool)
    ensures r ==> |key| == 1 && key != "Backspace" && key != "Enter"
  {
    |key| == 1 && (IsLowerLetter(key[0]) || IsUpperLetter(key[0]))
  }

  /** The lower-case form of an ASCII letter: the same letter of the alphabet. */
  function ToLower(c: char): (r: char)
    requires IsLowerLetter(c) || IsUpperLetter(c)
    ensures IsLowerLetter(r)
    ensures IsLowerLetter(c) ==> r == c
    ensures IsUpperLetter(c) ==> r as int - 'a' as int == c as int - 'A' as int
  {
    if IsUpperLetter(c) then (c as int - 'A' as int + 'a' as int) as char else c
  }

  /** `slice(0, -1)`: the string without its last character; empty stays empty. */
  function DropLast(s: string): (r: string)
    ensures s == [] ==> r == []
    ensures s != [] ==> r + [s[|s| - 1]] == s
  {
    if s == [] then [] else s[..|s| - 1]
  }

  /** Typing a letter key keeps the buffer made of lower-case letters. */
  lemma LetterKeyKeepsBuffer(buffer: string, key: string)
    requires IsLowerWord(buffer) && IsLetterKey(key)
    ensures IsLowerWord(buffer + [ToLower(key[0])])
  {
  }

  class Game {
    var score: int
    var escapes: int
    var gameOver: bool
    var typingBuffer: string
    /** Glyphs of the kana that reached the bottom, in the order they escaped. */
    var escapedKana: seq<string>
    var fallingKana: seq<Kana>
    var lastSpawnTime: int
    var gameMode: Mode

    /** What holds between any two events of a running game. */
    ghost predicate Valid()
      reads this
    {
      && score >= 0 && score % SCORE_PER_KILL == 0
      && escapes == |escapedKana|
      && (gameOver <==> escapes >= MAX_ESCAPES)
      && IsLowerWord(typingBuffer)
      && (forall k :: k in fallingKana ==> WellFormed(k))
    }

    /** The state right after a restart in drawing mode `mode`. */
    ghost predicate IsFreshGame(mode: Mode)
      reads this
    {
      && score == 0 && escapes == 0 && !gameOver
      && typingBuffer == "" && escapedKana == [] && fallingKana == []
      && lastSpawnTime == 0 && gameMode == mode
    }

    /** The game as it starts once its assets have loaded. */
    constructor (mode: Mode)
      ensures Valid() && IsFreshGame(mode)
    {
      score := 0;
      escapes := 0;
      gameOver := false;
      typingBuffer := "";
      escapedKana := [];
      fallingKana := [];
      lastSpawnTime := 0;
      gameMode := mode;
    }

    /** Start over; `mode` is the coin flip between the two scripts. */
    method Reset(mode: Mode)
      modifies this
      ensures Valid() && IsFreshGame(mode)
    {
      score := 0;
      escapes := 0;
      gameOver := false;
      typingBuffer := "";
      escapedKana := [];
      fallingKana := [];
      lastSpawnTime := 0;
      gameMode := mode;
    }

    /** The Enter branch: destroy the lowest kana whose reading is the
        buffer, if there is one, and clear the buffer either way. */
    method PressEnter(switchMode: bool)
      requires Valid() && !gameOver
      modifies this`fallingKana, this`score, this`gameMode, this`typingBuffer
      ensures Valid()
      ensures typingBuffer == ""
      ensures HasCandidate(old(fallingKana), old(typingBuffer)) ==>
        && (exists i :: IsTarget(old(fallingKana), old(typingBuffer), i) && fallingKana == RemoveAt(old(fallingKana), i))
        && score == old(score) + SCORE_PER_KILL
        && gameMode == (if switchMode then Flip(old(gameMode)) else old(gameMode))
      ensures !HasCandidate(old(fallingKana), old(typingBuffer)) ==>
        fallingKana == old(fallingKana) && score == old(score) && gameMode == old(gameMode)
    {
      var destroyed := false;
      var targetIndex := FindTarget(fallingKana, typingBuffer);
      if targetIndex != -1 {
        RemoveAtKeeps(fallingKana, targetIndex);
        fallingKana := RemoveAt(fallingKana, targetIndex);
        score := score + SCORE_PER_KILL;
        destroyed := true;
      }
      if destroyed {
        if switchMode {
          gameMode := Flip(gameMode);
        }
      }
      typingBuffer := "";
    }

    /** One key press. `switchMode` is the 20% coin flip that may change the
        script after a kill; `resetMode` the script chosen on a restart. */
    method KeyDown(key: string, switchMode: bool, resetMode: Mode)
      requires Valid()
      modifies this
      ensures Valid()
      // Game over: only r or R does anything, and it restarts.
      ensures old(gameOver) ==> if key == "r" || key == "R" then IsFreshGame(resetMode) else unchanged(this)
      // While playing, keys never touch the escape counters or the spawn clock.
      ensures !old(gameOver) ==>
        && escapes == old(escapes) && escapedKana == old(escapedKana)
        && gameOver == old(gameOver) && lastSpawnTime == old(lastSpawnTime)
      ensures !old(gameOver) ==> score == old(score) || score == old(score) + SCORE_PER_KILL
      ensures !old(gameOver) && key != "Enter" ==>
        fallingKana == old(fallingKana) && score == old(score) && gameMode == old(gameMode)
      ensures !old(gameOver) && key == "Backspace" ==> typingBuffer == DropLast(old(typingBuffer))
      ensures !old(gameOver) && key != "Backspace" && key != "Enter" ==>
        typingBuffer == if IsLetterKey(key) then old(typingBuffer) + [ToLower(key[0])] else old(typingBuffer)
      // Enter: destroy the target if there is one, and always clear the buffer.
      ensures !old(gameOver) && key == "Enter" ==>
        && typingBuffer == ""
        && (HasCandidate(old(fallingKana), old(typingBuffer)) ==>
              && (exists i :: IsTarget(old(fallingKana), old(typingBuffer), i) && fallingKana == RemoveAt(old(fallingKana), i))
              && score == old(score) + SCORE_PER_KILL
              && gameMode == (if switchMode then Flip(old(gameMode)) else old(gameMode)))
        && (!HasCandidate(old(fallingKana), old(typingBuffer)) ==>
              fallingKana == old(fallingKana) && score == old(score) && gameMode == old(gameMode))
    {
      if gameOver {
        if key == "r" || key == "R" {
          Reset(resetMode);
        }
        return;
      }

      if key == "Backspace" {
        typingBuffer := DropLast(typingBuffer);
      } else if key == "Enter" {
        PressEnter(switchMode);
      } else if IsLetterKey(key) {
        typingBuffer := typingBuffer + [ToLower(key[0])];
      }
    }

    /** Push a new kana when more than KANA_SPAWN_RATE milliseconds have
        passed since the last spawn. */
    method SpawnIfDue(currentTime: int, kanaIndex: nat, x: int, speed: int)
      requires kanaIndex < |BASIC_KANA| && speed >= 1
      modifies this`fallingKana, this`lastSpawnTime
      ensures currentTime - old(lastSpawnTime) > KANA_SPAWN_RATE ==>
        fallingKana == old(fallingKana) + [NewKana(kanaIndex, gameMode, x, speed)] && lastSpawnTime == currentTime
      ensures currentTime - old(lastSpawnTime) <= KANA_SPAWN_RATE ==>
        fallingKana == old(fallingKana) && lastSpawnTime == old(lastSpawnTime)
    {
      if currentTime - lastSpawnTime > KANA_SPAWN_RATE {
        fallingKana := fallingKana + [NewKana(kanaIndex, gameMode, x, speed)];
        lastSpawnTime := currentTime;
      }
    }

    /** The backward sweep: move every kana, and take out and count each
        one that has passed the escape line. */
    method SweepEscapes()
      modifies this`fallingKana, this`escapedKana, this`escapes
      ensures fallingKana == Survivors(old(fallingKana))
      ensures escapedKana == old(escapedKana) + Escapees(old(fallingKana))
      ensures escapes == old(escapes) + |Escapees(old(fallingKana))|
    {
      ghost var ks := fallingKana;
      ghost var done: seq<Kana>, recorded: seq<string> := [], [];
      var kana, escaped, count := fallingKana, escapedKana, escapes;
      var i := |kana| - 1;
      while i >= 0
        invariant -1 <= i < |ks|
        invariant done == Survivors(ks[i + 1..]) && recorded == Escapees(ks[i + 1..])
        invariant kana == ks[..i + 1] + done
        invariant escaped == old(escapedKana) + recorded
        invariant count == old(escapes) + |recorded|
      {
        var moved := Update(kana[i]);
        assert kana[i] == ks[i] && kana[..i] + kana[i + 1..] == ks[..i] + done
          && kana[i := moved] == ks[..i] + ([moved] + done) by {
          assert kana == ks[..i] + [ks[i]] + done by {
            assert ks[..i + 1] == ks[..i] + [ks[i]];
          }
          ReplaceOrSplice(ks[..i], ks[i], moved, done);
        }
        assert Survivors(ks[i..]) == (if moved.y > ESCAPE_LINE then [] else [moved]) + done
          && Escapees(ks[i..]) == recorded + (if moved.y > ESCAPE_LINE then [moved.character] else []) by {
          SweepStep(ks, i);
        }
        if moved.y > ESCAPE_LINE {
          count := count + 1;
          escaped := escaped + [moved.character];
          kana := kana[..i] + kana[i + 1..];
          recorded := recorded + [moved.character];
        } else {
          kana := kana[i := moved];
          done := [moved] + done;
        }
        i := i - 1;
      }
      assert ks[0..] == ks;
      fallingKana, escapedKana, escapes := kana, escaped, count;
    }

    /** The update half of one animation frame at time `currentTime`;
        `kanaIndex`, `x` and `speed` are the random choices for a kana that
        may spawn. */
    method Tick(currentTime: int, kanaIndex: nat, x: int, speed: int)
      requires Valid()
      requires kanaIndex < |BASIC_KANA| && speed >= 1
      modifies this
      ensures Valid()
      ensures old(gameOver) ==> unchanged(this)
      ensures !old(gameOver) ==>
        var due := currentTime - old(lastSpawnTime) > KANA_SPAWN_RATE;
        var before := if due then old(fallingKana) + [NewKana(kanaIndex, old(gameMode), x, speed)] else old(fallingKana);
        && lastSpawnTime == (if due then currentTime else old(lastSpawnTime))
        && fallingKana == Survivors(before)
        && escapedKana == old(escapedKana) + Escapees(before)
        && escapes == old(escapes) + |Escapees(before)|
        && gameOver == (escapes >= MAX_ESCAPES)
        && score == old(score) && typingBuffer == old(typingBuffer) && gameMode == old(gameMode)
    {
      if !gameOver {
        SpawnIfDue(currentTime, kanaIndex, x, speed);
        ghost var before := fallingKana;
        assert forall k :: k in before ==> WellFormed(k);
        SurvivorsWellFormed(before);
        SweepEscapes();
        if escapes >= MAX_ESCAPES {
          gameOver := true;
        }
      }
    }
  }
}
