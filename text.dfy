/** Python's `str.split(sep)` with an explicit one-character separator, as the grocery-list
    generator uses it on the free-text extra items. */
module Text {

  /** Number of occurrences of `c` in `s`. */
  function Count(s: string, c: char): nat {
    if |s| == 0 then 0 else (if s[0] == c then 1 else 0) + Count(s[1..], c)
  }

  /** `s.split(sep)`: the pieces between separators, so the empty string gives one empty piece
      and a trailing separator gives a trailing empty piece. */
  function Split(s: string, sep: char): (pieces: seq<string>)
    ensures |pieces| == Count(s, sep) + 1
    ensures forall i | 0 <= i < |pieces| :: sep !in pieces[i]
  {
    if |s| == 0 then [""]
    else
      var rest := Split(s[1..], sep);
      if s[0] == sep then [""] + rest
      else [[s[0]] + rest[0]] + rest[1..]
  }

  /** `sep.join(pieces)`. */
  function Join(pieces: seq<string>, sep: char): string {
    if |pieces| == 0 then ""
    else if |pieces| == 1 then pieces[0]
    else pieces[0] + [sep] + Join(pieces[1..], sep)
  }

  /** Splitting loses nothing: joining the pieces gives the text back. */
  lemma {:induction false} JoinSplit(s: string, sep: char)
    ensures Join(Split(s, sep), sep) == s
    decreases |s|
  {
    if |s| > 0 {
      var rest := Split(s[1..], sep);
      JoinSplit(s[1..], sep);
      if s[0] == sep {
        assert Split(s, sep) == [""] + rest;
        assert ([""] + rest)[1..] == rest;
      } else {
        var head := [s[0]] + rest[0];
        assert Split(s, sep) == [head] + rest[1..];
        if |rest| == 1 {
          assert Join(rest, sep) == rest[0];
        } else {
          assert Join(rest, sep) == rest[0] + [sep] + Join(rest[1..], sep);
          assert ([head] + rest[1..])[1..] == rest[1..];
        }
      }
    }
  }

  /** Pieces without the separator come back from a join unchanged. */
  lemma {:induction false} SplitJoin(pieces: seq<string>, sep: char)
    requires |pieces| >= 1
    requires forall i | 0 <= i < |pieces| :: sep !in pieces[i]
    ensures Split(Join(pieces, sep), sep) == pieces
    decreases |pieces|, |pieces[0]|
  {
    if |pieces[0]| > 0 {
      var tail := [pieces[0][1..]] + pieces[1..];
      TailPiecesFree(pieces, sep);
      SplitJoin(tail, sep);
      assert pieces[0][0] != sep by { assert pieces[0][0] in pieces[0]; }
      SplitJoinStep(pieces, sep);
    } else if |pieces| > 1 {
      SplitJoin(pieces[1..], sep);
      JoinCons(pieces[0], pieces[1..], sep);
      assert pieces == [pieces[0]] + pieces[1..];
      SplitSep(Join(pieces[1..], sep), sep);
    }
  }

  /** The inductive step of `SplitJoin` when the first piece is not empty: its first character
      goes in front of the first piece of the rest. */
  lemma SplitJoinStep(pieces: seq<string>, sep: char)
    requires |pieces| >= 1 && |pieces[0]| > 0 && pieces[0][0] != sep
    requires var tail := [pieces[0][1..]] + pieces[1..]; Split(Join(tail, sep), sep) == tail
    ensures Split(Join(pieces, sep), sep) == pieces
  {
    var p := pieces[0];
    var tail := [p[1..]] + pieces[1..];
    var j := Join(tail, sep);
    assert Join(pieces, sep) == [p[0]] + j by {
      JoinCons(p, pieces[1..], sep);
      JoinCons(p[1..], pieces[1..], sep);
      assert pieces == [p] + pieces[1..];
      assert p == [p[0]] + p[1..];
    }
    SplitChar(p[0], j, sep);
    assert Split(j, sep)[0] == p[1..] && Split(j, sep)[1..] == pieces[1..];
    assert [p[0]] + p[1..] == p;
    assert pieces == [p] + pieces[1..];
  }

  /** Dropping the first character of the first piece keeps every piece free of the separator. */
  lemma TailPiecesFree(pieces: seq<string>, sep: char)
    requires |pieces| >= 1 && |pieces[0]| > 0
    requires forall i | 0 <= i < |pieces| :: sep !in pieces[i]
    ensures var tail := [pieces[0][1..]] + pieces[1..];
      forall i | 0 <= i < |tail| :: sep !in tail[i]
  {
    var tail := [pieces[0][1..]] + pieces[1..];
    forall i | 0 <= i < |tail| ensures sep !in tail[i] {
      if i == 0 {
        assert forall x | x in pieces[0][1..] :: x in pieces[0];
      } else {
        assert tail[i] == pieces[i];
      }
    }
  }

  /** A leading ordinary character joins the first piece. */
  lemma SplitChar(c: char, s: string, sep: char)
    requires c != sep
    ensures Split([c] + s, sep) == [[c] + Split(s, sep)[0]] + Split(s, sep)[1..]
  {
    assert ([c] + s)[1..] == s;
  }

  /** A leading separator starts with an empty piece. */
  lemma SplitSep(s: string, sep: char)
    ensures Split([sep] + s, sep) == [""] + Split(s, sep)
  {
    assert ([sep] + s)[1..] == s;
  }

  /** Join of a head piece and further pieces. */
  lemma JoinCons(p: string, rest: seq<string>, sep: char)
    ensures Join([p] + rest, sep) == if |rest| == 0 then p else p + [sep] + Join(rest, sep)
  {
    if |rest| > 0 {
      assert ([p] + rest)[1..] == rest;
    }
  }
}
