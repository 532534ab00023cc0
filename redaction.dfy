/** `strings.ReplaceAll` with a non-empty pattern, as `sanitizeError`
    (telegram.go) uses it to blank out the bot token: scanning from the
    left, every occurrence that does not overlap an earlier replaced one is
    replaced. Beside it, a reference definition in the shape of Go's
    `strings.Split` followed by `strings.Join`. */
module Redaction {
  import opened Base

  ghost predicate OccursAt(s: seq<byte>, pat: seq<byte>, i: int) {
    0 <= i && i + |pat| <= |s| && s[i..i + |pat|] == pat
  }

  ghost predicate Occurs(s: seq<byte>, pat: seq<byte>) {
    exists i :: OccursAt(s, pat, i)
  }

  function ReplaceAll(s: seq<byte>, pat: seq<byte>, rep: seq<byte>): (r: seq<byte>)
    requires |pat| > 0
    ensures |rep| <= |pat| ==> |r| <= |s|
    ensures |rep| >= |pat| ==> |r| >= |s|
    decreases |s|
  {
    if |s| < |pat| then s
    else if s[..|pat|] == pat then rep + ReplaceAll(s[|pat|..], pat, rep)
    else [s[0]] + ReplaceAll(s[1..], pat, rep)
  }

  /** The pieces of `s` between the occurrences of `sep`, leftmost first. */
  function SplitOn(s: seq<byte>, sep: seq<byte>): (pieces: seq<seq<byte>>)
    requires |sep| > 0
    ensures |pieces| >= 1
    decreases |s|
  {
    if |s| < |sep| then [s]
    else if s[..|sep|] == sep then [[]] + SplitOn(s[|sep|..], sep)
    else
      var rest := SplitOn(s[1..], sep);
      [[s[0]] + rest[0]] + rest[1..]
  }

  /** The pieces with `glue` between each two of them. */
  function JoinWith(pieces: seq<seq<byte>>, glue: seq<byte>): seq<byte>
    requires |pieces| >= 1
    decreases |pieces|
  {
    if |pieces| == 1 then pieces[0] else pieces[0] + glue + JoinWith(pieces[1..], glue)
  }

  lemma JoinConsHead(x: byte, pieces: seq<seq<byte>>, glue: seq<byte>)
    requires |pieces| >= 1
    ensures JoinWith([[x] + pieces[0]] + pieces[1..], glue) == [x] + JoinWith(pieces, glue)
  {
    var joined := [[x] + pieces[0]] + pieces[1..];
    assert joined[1..] == pieces[1..];
  }

  /** Replacing every occurrence is splitting at the occurrences and
      joining the pieces with the replacement. */
  lemma {:induction false} ReplaceIsSplitJoin(s: seq<byte>, pat: seq<byte>, rep: seq<byte>)
    requires |pat| > 0
    ensures ReplaceAll(s, pat, rep) == JoinWith(SplitOn(s, pat), rep)
    decreases |s|
  {
    if |s| < |pat| {
    } else if s[..|pat|] == pat {
      ReplaceIsSplitJoin(s[|pat|..], pat, rep);
      var pieces := [[]] + SplitOn(s[|pat|..], pat);
      assert pieces[1..] == SplitOn(s[|pat|..], pat);
    } else {
      var rest := SplitOn(s[1..], pat);
      assert SplitOn(s, pat) == [[s[0]] + rest[0]] + rest[1..];
      ReplaceIsSplitJoin(s[1..], pat, rep);
      JoinConsHead(s[0], rest, rep);
    }
  }

  lemma {:induction false} FirstPieceIsPrefix(s: seq<byte>, sep: seq<byte>)
    requires |sep| > 0
    ensures |SplitOn(s, sep)[0]| <= |s| && SplitOn(s, sep)[0] == s[..|SplitOn(s, sep)[0]|]
    decreases |s|
  {
    if |s| >= |sep| && s[..|sep|] != sep {
      FirstPieceIsPrefix(s[1..], sep);
    }
  }

  /** No piece contains the separator: every occurrence was cut out. */
  lemma {:induction false} PiecesFree(s: seq<byte>, sep: seq<byte>)
    requires |sep| > 0
    ensures forall k :: 0 <= k < |SplitOn(s, sep)| ==> !Occurs(SplitOn(s, sep)[k], sep)
    decreases |s|
  {
    var pieces := SplitOn(s, sep);
    if |s| < |sep| {
    } else if s[..|sep|] == sep {
      PiecesFree(s[|sep|..], sep);
      assert pieces[1..] == SplitOn(s[|sep|..], sep);
      forall k | 0 <= k < |pieces| ensures !Occurs(pieces[k], sep) {
        if k > 0 {
          assert pieces[k] == SplitOn(s[|sep|..], sep)[k - 1];
        }
      }
    } else {
      var rest := SplitOn(s[1..], sep);
      PiecesFree(s[1..], sep);
      FirstPieceIsPrefix(s[1..], sep);
      var first := [s[0]] + rest[0];
      assert first == s[..|first|];
      forall i | 0 <= i && i + |sep| <= |first| ensures !OccursAt(first, sep, i) {
        if i == 0 {
          assert first[..|sep|] == s[..|sep|];
        } else {
          assert rest[0][i - 1..i - 1 + |sep|] == first[i..i + |sep|];
          assert !OccursAt(rest[0], sep, i - 1);
        }
      }
      forall k | 0 <= k < |pieces| ensures !Occurs(pieces[k], sep) {
        if k > 0 {
          assert pieces[k] == rest[k];
        }
      }
    }
  }

  /** Splitting and joining back with the separator itself loses nothing. */
  lemma {:induction false} ReplaceWithItself(s: seq<byte>, pat: seq<byte>)
    requires |pat| > 0
    ensures ReplaceAll(s, pat, pat) == s
    ensures JoinWith(SplitOn(s, pat), pat) == s
    decreases |s|
  {
    if |s| >= |pat| {
      if s[..|pat|] == pat {
        ReplaceWithItself(s[|pat|..], pat);
        assert s == s[..|pat|] + s[|pat|..];
      } else {
        ReplaceWithItself(s[1..], pat);
        assert s == [s[0]] + s[1..];
      }
    }
    ReplaceIsSplitJoin(s, pat, pat);
  }

  /** A text without the pattern comes back unchanged. */
  lemma {:induction false} ReplaceAbsent(s: seq<byte>, pat: seq<byte>, rep: seq<byte>)
    requires |pat| > 0
    ensures !Occurs(s, pat) ==> ReplaceAll(s, pat, rep) == s
    decreases |s|
  {
    if |s| >= |pat| && !Occurs(s, pat) {
      assert !OccursAt(s, pat, 0);
      forall i | OccursAt(s[1..], pat, i) ensures false {
        assert s[1..][i..i + |pat|] == s[i + 1..i + 1 + |pat|];
        assert OccursAt(s, pat, i + 1);
      }
      ReplaceAbsent(s[1..], pat, rep);
      assert s == [s[0]] + s[1..];
    }
  }
  /** Joining pieces free of `pat` with a glue that cannot take part in an
      occurrence (its first and last bytes are not in `pat`, and `pat` does
      not occur inside it) leaves no occurrence. */
  lemma {:induction false} JoinClean(pieces: seq<seq<byte>>, glue: seq<byte>, pat: seq<byte>)
    requires |pieces| >= 1 && |pat| > 0 && |glue| > 0
    requires forall k :: 0 <= k < |pieces| ==> !Occurs(pieces[k], pat)
    requires glue[0] !in pat && glue[|glue| - 1] !in pat && !Occurs(glue, pat)
    ensures !Occurs(JoinWith(pieces, glue), pat)
    decreases |pieces|
  {
    if |pieces| > 1 {
      var p0, rest := pieces[0], JoinWith(pieces[1..], glue);
      assert forall k :: 0 <= k < |pieces[1..]| ==> pieces[1..][k] == pieces[k + 1];
      JoinClean(pieces[1..], glue, pat);
      var s := p0 + glue + rest;
      var P, G, L := |p0|, |glue|, |pat|;
      forall i | 0 <= i && i + L <= |s| ensures !OccursAt(s, pat, i) {
        if i + L <= P {
          assert s[i..i + L] == p0[i..i + L];
          assert !OccursAt(p0, pat, i);
        } else if i <= P {
          assert s[P] == glue[0];
          assert s[i..i + L][P - i] == s[P];
        } else if i + L <= P + G {
          assert s[i..i + L] == glue[i - P..i - P + L];
          assert !OccursAt(glue, pat, i - P);
        } else if i < P + G {
          assert s[P + G - 1] == glue[G - 1];
          assert s[i..i + L][P + G - 1 - i] == s[P + G - 1];
        } else {
          assert s[i..i + L] == rest[i - P - G..i - P - G + L];
          assert !OccursAt(rest, pat, i - P - G);
        }
      }
    }
  }

  /** After replacing every occurrence the pattern is gone, provided the
      replacement cannot help form a new one. */
  lemma ReplaceLeavesNone(s: seq<byte>, pat: seq<byte>, rep: seq<byte>)
    requires |pat| > 0
    ensures |rep| > 0 && rep[0] !in pat && rep[|rep| - 1] !in pat && !Occurs(rep, pat) ==>
      !Occurs(ReplaceAll(s, pat, rep), pat)
  {
    if |rep| > 0 && rep[0] !in pat && rep[|rep| - 1] !in pat && !Occurs(rep, pat) {
      ReplaceIsSplitJoin(s, pat, rep);
      PiecesFree(s, pat);
      JoinClean(SplitOn(s, pat), rep, pat);
    }
  }
}
