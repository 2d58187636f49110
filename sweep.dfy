/** What one frame's backward sweep over the falling kana produces: each kana
    moves by its speed, those below the escape line leave the list, and their
    glyphs are recorded from the last index to the first. */
module EscapeSweep {
  import opened KanaData

  /** A kana that, once moved, lies strictly below the escape line. */
  predicate EscapesAfterMove(k: Kana) {
    Update(k).y > ESCAPE_LINE
  }

  /** The kana left on screen after the sweep, moved, in their original order. */
  function Survivors(ks: seq<Kana>): (r: seq<Kana>)
    ensures |r| <= |ks|
    ensures forall k :: k in r ==> k.y <= ESCAPE_LINE
  {
    if ks == [] then []
    else (if EscapesAfterMove(ks[0]) then [] else [Update(ks[0])]) + Survivors(ks[1..])
  }

  /** The glyphs of the kana that escape, in the order the backward sweep
      records them: from the highest index down. */
  function Escapees(ks: seq<Kana>): (r: seq<string>)
    ensures |r| <= |ks|
  {
    if ks == [] then []
    else Escapees(ks[1..]) + (if EscapesAfterMove(ks[0]) then [ks[0].character] else [])
  }

  /** Every kana moved by one frame, none removed. */
  function Moved(ks: seq<Kana>): (r: seq<Kana>)
    ensures |r| == |ks|
    ensures forall i :: 0 <= i < |ks| ==> r[i] == Update(ks[i])
  {
    seq(|ks|, i requires 0 <= i < |ks| => Update(ks[i]))
  }

  /** `a` is `b` with some elements left out and the rest in the same order. */
  predicate IsSubsequence<T(==)>(a: seq<T>, b: seq<T>)
    decreases |b|
  {
    if a == [] then true
    else if b == [] then false
    else (a[0] == b[0] && IsSubsequence(a[1..], b[1..])) || IsSubsequence(a, b[1..])
  }

  /** One step of the backward sweep: kana `i` is moved and kept or dropped
      in front of what the sweep made of the kana after it. */
  lemma SweepStep(ks: seq<Kana>, i: nat)
    requires i < |ks|
    ensures Survivors(ks[i..]) == (if EscapesAfterMove(ks[i]) then [] else [Update(ks[i])]) + Survivors(ks[i + 1..])
    ensures Escapees(ks[i..]) == Escapees(ks[i + 1..]) + (if EscapesAfterMove(ks[i]) then [ks[i].character] else [])
  {
    assert ks[i..][0] == ks[i];
    assert ks[i..][1..] == ks[i + 1..];
  }

  /** The element after `prefix` either replaced or spliced out. */
  lemma ReplaceOrSplice<T>(prefix: seq<T>, x: T, u: T, rest: seq<T>)
    ensures var s := prefix + [x] + rest;
      && s[|prefix| := u] == prefix + ([u] + rest)
      && s[..|prefix|] + s[|prefix| + 1..] == prefix + rest
  {
    var s := prefix + [x] + rest;
    assert s[|prefix| := u] == prefix + ([u] + rest);
    assert s[..|prefix|] == prefix;
    assert s[|prefix| + 1..] == rest;
  }

  /** No kana is lost: each one either survives or escapes. */
  lemma {:induction false} SweepPartitions(ks: seq<Kana>)
    ensures |Survivors(ks)| + |Escapees(ks)| == |ks|
  {
    if ks != [] { SweepPartitions(ks[1..]); }
  }

  /** The survivors of a list split in two are the survivors of the first part
      followed by those of the second: relative order is kept. */
  lemma {:induction false} SurvivorsAppend(a: seq<Kana>, b: seq<Kana>)
    ensures Survivors(a + b) == Survivors(a) + Survivors(b)
  {
    if a == [] {
      assert a + b == b;
    } else {
      assert (a + b)[1..] == a[1..] + b;
      SurvivorsAppend(a[1..], b);
    }
  }

  /** The escapees of a list split in two are those of the second part first:
      the glyphs are recorded in descending index order. */
  lemma {:induction false} EscapeesAppend(a: seq<Kana>, b: seq<Kana>)
    ensures Escapees(a + b) == Escapees(b) + Escapees(a)
  {
    if a == [] {
      assert a + b == b;
    } else {
      assert (a + b)[1..] == a[1..] + b;
      EscapeesAppend(a[1..], b);
    }
  }

  /** A kana survives exactly when it is some kana moved by its speed that
      did not cross the escape line. */
  lemma {:induction false} SurvivorMembership(ks: seq<Kana>, k: Kana)
    ensures k in Survivors(ks) <==> exists i :: 0 <= i < |ks| && k == Update(ks[i]) && !EscapesAfterMove(ks[i])
  {
    if ks != [] {
      SurvivorMembership(ks[1..], k);
      if exists i :: 0 <= i < |ks[1..]| && k == Update(ks[1..][i]) && !EscapesAfterMove(ks[1..][i]) {
        var i :| 0 <= i < |ks[1..]| && k == Update(ks[1..][i]) && !EscapesAfterMove(ks[1..][i]);
        assert ks[i + 1] == ks[1..][i];
      }
      if exists i :: 0 <= i < |ks| && k == Update(ks[i]) && !EscapesAfterMove(ks[i]) {
        var i :| 0 <= i < |ks| && k == Update(ks[i]) && !EscapesAfterMove(ks[i]);
        if i > 0 { assert ks[1..][i - 1] == ks[i]; }
      }
    }
  }

  /** A glyph is recorded exactly when some kana with that glyph crossed the
      escape line on this move. */
  lemma {:induction false} EscapeeMembership(ks: seq<Kana>, c: string)
    ensures c in Escapees(ks) <==> exists i :: 0 <= i < |ks| && ks[i].character == c && EscapesAfterMove(ks[i])
  {
    if ks != [] {
      EscapeeMembership(ks[1..], c);
      if exists i :: 0 <= i < |ks[1..]| && ks[1..][i].character == c && EscapesAfterMove(ks[1..][i]) {
        var i :| 0 <= i < |ks[1..]| && ks[1..][i].character == c && EscapesAfterMove(ks[1..][i]);
        assert ks[i + 1] == ks[1..][i];
      }
      if exists i :: 0 <= i < |ks| && ks[i].character == c && EscapesAfterMove(ks[i]) {
        var i :| 0 <= i < |ks| && ks[i].character == c && EscapesAfterMove(ks[i]);
        if i > 0 { assert ks[1..][i - 1] == ks[i]; }
      }
    }
  }

  /** The survivors are the moved list with the escaped kana left out. */
  lemma {:induction false} SurvivorsOrdered(ks: seq<Kana>)
    ensures IsSubsequence(Survivors(ks), Moved(ks))
  {
    if ks != [] {
      SurvivorsOrdered(ks[1..]);
      assert Moved(ks)[1..] == Moved(ks[1..]);
      var rest := Survivors(ks[1..]);
      if !EscapesAfterMove(ks[0]) {
        assert Survivors(ks) == [Update(ks[0])] + rest;
        assert (Survivors(ks))[1..] == rest;
      } else {
        assert Survivors(ks) == rest;
      }
    }
  }

  /** Kana on screen stay well-formed through the sweep. */
  lemma SurvivorsWellFormed(ks: seq<Kana>)
    requires forall k :: k in ks ==> WellFormed(k)
    ensures forall k :: k in Survivors(ks) ==> WellFormed(k)
  {
  }
}
