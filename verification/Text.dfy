/** Line splitting, joining and substring search on text. */
module Text {
  import opened Splitting
  import opened Wrappers

  ghost predicate FreeOf(c: char, s: string) {
    forall i :: 0 <= i < |s| ==> s[i] != c
  }

  function Join(lines: seq<string>): string {
    if lines == [] then ""
    else if |lines| == 1 then lines[0]
    else lines[0] + "\n" + Join(lines[1..])
  }

  predicate IsNewline(c: char) { c == '\n' }

  /** The pieces between newlines; always at least one. */
  function Lines(t: string): (r: seq<string>)
    ensures |r| >= 1
  {
    Pieces(t, IsNewline)
  }

  lemma {:induction false} JoinIsJoined(ls: seq<string>, newlines: string)
    requires |ls| == |newlines| + 1
    requires forall i :: 0 <= i < |newlines| ==> newlines[i] == '\n'
    ensures Join(ls) == Joined(ls, newlines)
  {
    if |ls| <= 1 {
    } else {
      JoinIsJoined(ls[1..], newlines[1..]);
      assert [newlines[0]] == "\n";
    }
  }

  lemma {:induction false} JoinOfLines(t: string)
    ensures Join(Lines(t)) == t
    ensures forall i :: 0 <= i < |Lines(t)| ==> FreeOf('\n', Lines(t)[i])
  {
    JoinedOfPieces(t, IsNewline);
    JoinIsJoined(Lines(t), Separators(t, IsNewline));
    forall i | 0 <= i < |Lines(t)|
      ensures FreeOf('\n', Lines(t)[i])
    {
      assert Unbroken(Lines(t)[i], IsNewline);
    }
  }

  lemma {:induction false} LinesOfJoin(ls: seq<string>)
    requires ls != []
    requires forall i :: 0 <= i < |ls| ==> FreeOf('\n', ls[i])
    ensures Lines(Join(ls)) == ls
  {
    var newlines := seq(|ls| - 1, _ => '\n');
    JoinIsJoined(ls, newlines);
    PiecesOfJoined(ls, newlines, IsNewline);
  }

  /** A newline between two texts separates their lines. */
  lemma {:induction false} LinesAppend(a: string, b: string)
    ensures Lines(a + "\n" + b) == Lines(a) + Lines(b)
  {
    PiecesAppend(a, '\n', b, IsNewline);
  }

  lemma {:induction false} JoinAppend(a: seq<string>, b: seq<string>)
    requires a != [] && b != []
    ensures Join(a + b) == Join(a) + "\n" + Join(b)
  {
    if |a| == 1 {
      assert (a + b)[1..] == b;
    } else {
      assert (a + b)[1..] == a[1..] + b;
      JoinAppend(a[1..], b);
    }
  }

  // ----- substring search

  predicate OccursAt(m: string, t: string, i: int) {
    0 <= i && i + |m| <= |t| && t[i..i + |m|] == m
  }

  predicate Contains(t: string, m: string) {
    exists i :: 0 <= i <= |t| && OccursAt(m, t, i)
  }

  ghost predicate Embeds(t: string, m: string) {
    exists a, b :: t == a + m + b
  }

  lemma {:induction false} ContainsExact(t: string, m: string)
    ensures Contains(t, m) <==> Embeds(t, m)
  {
    if i :| 0 <= i <= |t| && OccursAt(m, t, i) {
      assert t == t[..i] + m + t[i + |m|..];
    }
    if a, b :| t == a + m + b {
      assert t[|a|..|a| + |m|] == m;
      assert OccursAt(m, t, |a|);
    }
  }

  /** The least position at or after `from` where `m` occurs. */
  function FindFrom(t: string, m: string, from: nat): (r: Option<nat>)
    requires from <= |t| + 1
    ensures r.Some? ==> from <= r.value && OccursAt(m, t, r.value)
    ensures r.Some? ==> forall i :: from <= i < r.value ==> !OccursAt(m, t, i)
    ensures r.None? ==> forall i :: from <= i ==> !OccursAt(m, t, i)
    decreases |t| + 1 - from
  {
    if from + |m| > |t| then None
    else if t[from..from + |m|] == m then Some(from)
    else FindFrom(t, m, from + 1)
  }

  /** The text before and after the first occurrence of `m`. */
  function SplitOnce(t: string, m: string): (r: Option<(string, string)>)
    ensures r.Some? ==> r.value.0 + m + r.value.1 == t
  {
    var i :- FindFrom(t, m, 0);
    Some((t[..i], t[i + |m|..]))
  }

  lemma {:induction false} SplitOnceAt(t: string, m: string, i: nat)
    requires OccursAt(m, t, i)
    requires forall j :: 0 <= j < i ==> !OccursAt(m, t, j)
    ensures SplitOnce(t, m) == Some((t[..i], t[i + |m|..]))
  {
    assert FindFrom(t, m, 0) == Some(i);
  }

  function StripPrefix(t: string, p: string): (r: Option<string>)
    ensures r.Some? <==> p <= t
    ensures r.Some? ==> p + r.value == t
  {
    if p <= t then Some(t[|p|..]) else None
  }

  /** The text between a fixed prefix and a fixed suffix. */
  function Between(t: string, p: string, s: string): (r: Option<string>)
    ensures r.Some? ==> t == p + r.value + s
  {
    if |p| + |s| <= |t| && t[..|p|] == p && t[|t| - |s|..] == s then
      assert t == p + t[|p|..|t| - |s|] + s;
      Some(t[|p|..|t| - |s|])
    else None
  }

  lemma {:induction false} BetweenOf(p: string, m: string, s: string)
    ensures Between(p + m + s, p, s) == Some(m)
  {
    var t := p + m + s;
    assert t[..|p|] == p && t[|t| - |s|..] == s;
    assert t[|p|..|t| - |s|] == m;
  }
}
