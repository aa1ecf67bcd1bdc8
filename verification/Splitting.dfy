/** Splitting text at separator characters and joining the pieces again. */
module Splitting {
  /** The pieces between separators; always at least one. */
  function Pieces(t: string, sep: char -> bool): (r: seq<string>)
    ensures |r| >= 1
  {
    if t == "" then [""]
    else
      var rest := Pieces(t[1..], sep);
      if sep(t[0]) then [""] + rest
      else [[t[0]] + rest[0]] + rest[1..]
  }

  function Separators(t: string, sep: char -> bool): string {
    if t == "" then "" else (if sep(t[0]) then [t[0]] else "") + Separators(t[1..], sep)
  }

  /** Pieces joined by any mix of separators. */
  function Joined(pieces: seq<string>, separators: string): string
    requires |pieces| == |separators| + 1
  {
    if separators == "" then pieces[0]
    else pieces[0] + [separators[0]] + Joined(pieces[1..], separators[1..])
  }

  ghost predicate Unbroken(s: string, sep: char -> bool) { forall i :: 0 <= i < |s| ==> !sep(s[i]) }

  ghost predicate Fits(pieces: seq<string>, separators: string, sep: char -> bool) {
    && |pieces| == |separators| + 1
    && (forall i :: 0 <= i < |pieces| ==> Unbroken(pieces[i], sep))
    && (forall i :: 0 <= i < |separators| ==> sep(separators[i]))
  }

  lemma {:induction false} PiecesCons(c: char, t: string, sep: char -> bool)
    ensures Pieces([c] + t, sep)
            == if sep(c) then [""] + Pieces(t, sep) else [[c] + Pieces(t, sep)[0]] + Pieces(t, sep)[1..]
  {
    assert ([c] + t)[1..] == t;
  }

  lemma {:induction false} PiecesAppendStep(c: char, rest: string, s: char, b: string, sep: char -> bool)
    requires Pieces(rest + [s] + b, sep) == Pieces(rest, sep) + Pieces(b, sep)
    ensures Pieces([c] + (rest + [s] + b), sep) == Pieces([c] + rest, sep) + Pieces(b, sep)
  {
    hide Pieces;
    PiecesCons(c, rest, sep);
    PiecesCons(c, rest + [s] + b, sep);
    var pa, pb := Pieces(rest, sep), Pieces(b, sep);
    assert (pa + pb)[0] == pa[0] && (pa + pb)[1..] == pa[1..] + pb;
  }

  /** A separator between two texts separates their pieces. */
  lemma {:induction false} PiecesAppend(a: string, s: char, b: string, sep: char -> bool)
    requires sep(s)
    ensures Pieces(a + [s] + b, sep) == Pieces(a, sep) + Pieces(b, sep)
  {
    if a == "" {
      assert a + [s] + b == [s] + b;
      PiecesCons(s, b, sep);
    } else {
      hide Pieces;
      PiecesAppend(a[1..], s, b, sep);
      PiecesAppendStep(a[0], a[1..], s, b, sep);
      assert a == [a[0]] + a[1..];
      assert a + [s] + b == [a[0]] + (a[1..] + [s] + b);
    }
  }

  lemma {:induction false} PiecesOfUnbroken(a: string, sep: char -> bool)
    requires Unbroken(a, sep)
    ensures Pieces(a, sep) == [a]
  {
    if a == "" {
    } else {
      PiecesOfUnbroken(a[1..], sep);
      assert [a[0]] + a[1..] == a;
      assert !sep(a[0]);
    }
  }

  /** Splitting undoes joining. */
  lemma {:induction false} PiecesOfJoined(pieces: seq<string>, separators: string, sep: char -> bool)
    requires Fits(pieces, separators, sep)
    ensures Pieces(Joined(pieces, separators), sep) == pieces
  {
    PiecesOfUnbroken(pieces[0], sep);
    if separators == "" {
      assert pieces == [pieces[0]];
    } else {
      assert forall i :: 0 <= i < |pieces| - 1 ==> pieces[1..][i] == pieces[i + 1];
      assert forall i :: 0 <= i < |separators| - 1 ==> separators[1..][i] == separators[i + 1];
      PiecesOfJoined(pieces[1..], separators[1..], sep);
      PiecesAppend(pieces[0], separators[0], Joined(pieces[1..], separators[1..]), sep);
    }
  }

  lemma {:induction false} JoinedAfter(c: char, pieces: seq<string>, separators: string, sep: char -> bool)
    requires Fits(pieces, separators, sep) && sep(c)
    ensures Fits([""] + pieces, [c] + separators, sep)
    ensures Joined([""] + pieces, [c] + separators) == [c] + Joined(pieces, separators)
  {
    assert ([""] + pieces)[1..] == pieces && ([c] + separators)[1..] == separators;
  }

  lemma {:induction false} JoinedLonger(c: char, pieces: seq<string>, separators: string, sep: char -> bool)
    requires Fits(pieces, separators, sep) && !sep(c)
    ensures Fits([[c] + pieces[0]] + pieces[1..], separators, sep)
    ensures Joined([[c] + pieces[0]] + pieces[1..], separators) == [c] + Joined(pieces, separators)
  {
    var longer := [[c] + pieces[0]] + pieces[1..];
    assert longer[1..] == pieces[1..];
    assert Unbroken(pieces[0], sep);
  }

  /** Joining undoes splitting, for every text. */
  lemma {:induction false} JoinedOfPieces(t: string, sep: char -> bool)
    ensures Fits(Pieces(t, sep), Separators(t, sep), sep)
    ensures Joined(Pieces(t, sep), Separators(t, sep)) == t
  {
    if t == "" {
    } else {
      hide Fits, Joined;
      JoinedOfPieces(t[1..], sep);
      var rest, seps := Pieces(t[1..], sep), Separators(t[1..], sep);
      if sep(t[0]) {
        JoinedAfter(t[0], rest, seps, sep);
      } else {
        JoinedLonger(t[0], rest, seps, sep);
        assert Separators(t, sep) == seps;
      }
    }
  }
}
