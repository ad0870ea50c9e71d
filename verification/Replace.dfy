/** The writing pass of the script function replace(). */
module Replace {

  predicate OccursAt(s: string, find: string, i: nat) { i + |find| <= |s| && s[i..i + |find|] == find }

  /** Replacement of the leftmost occurrences that do not overlap, from a position on. */
  function Replaced(src: string, find: string, replaceWith: string, i: nat): string
    requires find != [] && i <= |src|
    decreases |src| - i
  {
    if i == |src| then []
    else if OccursAt(src, find, i) then replaceWith + Replaced(src, find, replaceWith, i + |find|)
    else [src[i]] + Replaced(src, find, replaceWith, i + 1)
  }

  /** Too short a rest holds no occurrence. */
  lemma {:induction false} ShortRest(src: string, find: string, replaceWith: string, i: nat)
    requires find != [] && |src| - |find| < i <= |src|
    ensures Replaced(src, find, replaceWith, i) == src[i..]
    decreases |src| - i
  {
    if i < |src| {
      ShortRest(src, find, replaceWith, i + 1);
      assert src[i..] == [src[i]] + src[i + 1..];
    }
  }

  /** The j characters before position i match the start of the search string. */
  ghost predicate Partial(src: string, find: string, i: nat, j: nat) {
    j <= |find| && j <= i <= |src| && src[i - j..i] == find[..j]
  }

  lemma PartialGrows(src: string, find: string, i: nat, j: nat)
    requires Partial(src, find, i, j) && i < |src| && j < |find| && src[i] == find[j]
    ensures Partial(src, find, i + 1, j + 1)
  {
    assert src[i - j..i + 1] == src[i - j..i] + [src[i]];
    assert find[..j + 1] == find[..j] + [find[j]];
  }

  lemma PartialWhole(src: string, find: string, i: nat)
    requires |find| <= i && Partial(src, find, i, |find|)
    ensures OccursAt(src, find, i - |find|)
  {
    assert find[..|find|] == find;
  }

  /** A mismatch behind j matching characters. */
  lemma NoMatch(src: string, find: string, start: nat, j: nat)
    requires j < |find| && start + j < |src| && src[start + j] != find[j]
    ensures !OccursAt(src, find, start)
  {
    if start + |find| <= |src| { assert src[start..start + |find|][j] == src[start + j]; }
  }

  /** What is written, with the replacement of the rest, is the whole result. */
  ghost predicate Done(written: string, src: string, find: string, replaceWith: string, at: nat, whole: string)
    requires find != []
  {
    at <= |src| && written + Replaced(src, find, replaceWith, at) == whole
  }

  lemma DoneMatch(written: string, src: string, find: string, replaceWith: string, at: nat, whole: string)
    requires find != [] && Done(written, src, find, replaceWith, at, whole) && OccursAt(src, find, at)
    ensures |written| + |replaceWith| <= |whole|
    ensures Done(written + replaceWith, src, find, replaceWith, at + |find|, whole)
  {
    var rest := Replaced(src, find, replaceWith, at + |find|);
    assert written + replaceWith + rest == written + (replaceWith + rest);
  }

  lemma DoneChar(written: string, src: string, find: string, replaceWith: string, at: nat, whole: string)
    requires find != [] && Done(written, src, find, replaceWith, at, whole) && !OccursAt(src, find, at) && at < |src|
    ensures |written| < |whole| && Done(written + [src[at]], src, find, replaceWith, at + 1, whole)
  {
    var rest := Replaced(src, find, replaceWith, at + 1);
    assert written + [src[at]] + rest == written + ([src[at]] + rest);
  }

  lemma DoneRest(written: string, src: string, find: string, replaceWith: string, at: nat, whole: string)
    requires find != [] && Done(written, src, find, replaceWith, at, whole) && |src| - at < |find|
    ensures written + src[at..] == whole
  {
    ShortRest(src, find, replaceWith, at);
  }

  /** What holds between two steps: the destination starts with what is written for the text
      before the match under way, and s counts that match too. */
  ghost predicate Inv(src: string, find: string, replaceWith: string, written: string, whole: string, i: nat, j: nat, s: nat)
    requires find != []
  {
    && j <= |find| && j <= i <= |src| && s - j == |written|
    && Partial(src, find, i, j) && Done(written, src, find, replaceWith, i - j, whole)
  }

  lemma InvStart(src: string, find: string, replaceWith: string)
    requires find != []
    ensures Inv(src, find, replaceWith, [], Replaced(src, find, replaceWith, 0), 0, 0, 0)
  {
    assert [] + Replaced(src, find, replaceWith, 0) == Replaced(src, find, replaceWith, 0);
  }

  /** A match is complete: its replacement is written over it. */
  method Finish(src: string, find: string, replaceWith: string, dest: array<char>, i: nat, start: nat,
                ghost before: string, ghost whole: string)
    returns (s: nat, ghost written: string)
    requires find != [] && |find| <= start && dest.Length >= |whole|
    requires Inv(src, find, replaceWith, before, whole, i, |find|, start) && dest[..start - |find|] == before
    modifies dest
    ensures Inv(src, find, replaceWith, written, whole, i, 0, s) && s <= dest.Length && dest[..s] == written
  {
    hide Done, Partial, OccursAt;
    PartialWhole(src, find, i);
    DoneMatch(before, src, find, replaceWith, i - |find|, whole);
    s := Copy(replaceWith, dest, start - |find|);
    written := before + replaceWith;
    PartialStart(src, find, i);
  }

  /** A match breaks off: its first character is written. */
  method BreakOff(src: string, find: string, replaceWith: string, dest: array<char>, i: nat, j: nat, s: nat,
                  ghost before: string, ghost whole: string)
    returns (ghost written: string)
    requires find != [] && j < |find| && j <= i < |src| && src[i] != find[j] && j <= s && dest.Length >= |whole|
    requires Inv(src, find, replaceWith, before, whole, i, j, s) && dest[..s - j] == before
    modifies dest
    ensures Inv(src, find, replaceWith, written, whole, i - j + 1, 0, s - j + 1)
    ensures s - j + 1 <= dest.Length && dest[..s - j + 1] == written
  {
    hide Done, Partial, OccursAt;
    NoMatch(src, find, i - j, j);
    DoneChar(before, src, find, replaceWith, i - j, whole);
    Write(dest, s - j, src[i - j]);
    written := before + [src[i - j]];
    PartialStart(src, find, i - j + 1);
  }

  /** The index i moves back by the length of an unfinished match, so it is not i that grows
      but the start of the match under way. */
  method WriteReplaced(src: string, find: string, replaceWith: string, dest: array<char>) returns (s: nat)
    requires find != [] && dest.Length >= |Replaced(src, find, replaceWith, 0)|
    modifies dest
    ensures s == |Replaced(src, find, replaceWith, 0)| && dest[..s] == Replaced(src, find, replaceWith, 0)
  {
    hide Done, Partial, OccursAt, Replaced;
    ghost var whole := Replaced(src, find, replaceWith, 0);
    var i, j := 0, 0;
    s := 0;
    ghost var written: string := [];
    InvStart(src, find, replaceWith);
    while true
      invariant Inv(src, find, replaceWith, written, whole, i, j, s)
      invariant |written| <= dest.Length && dest[..|written|] == written
      decreases |src| - (i - j), |find| - j
    {
      if j == |find| {
        s, written := Finish(src, find, replaceWith, dest, i, s, written, whole);
        j := 0;
      }
      if i == |src| { break; }
      if src[i] == find[j] {
        PartialGrows(src, find, i, j);
        j := j + 1;
      } else {
        written := BreakOff(src, find, replaceWith, dest, i, j, s, written, whole);
        i, s, j := i - j, s - j, 0;
      }
      i, s := i + 1, s + 1;
    }
    DoneRest(written, src, find, replaceWith, i - j, whole);
    WriteTail(src, dest, j, s, whole);
  }

  lemma PartialStart(src: string, find: string, i: nat)
    requires i <= |src|
    ensures Partial(src, find, i, 0)
  {
  }

  method Write(dest: array<char>, s: nat, c: char)
    requires s < dest.Length
    modifies dest
    ensures dest[..s + 1] == old(dest[..s]) + [c]
  {
    dest[s] := c;
  }

  method Copy(replaceWith: string, dest: array<char>, start: nat) returns (s: nat)
    requires start + |replaceWith| <= dest.Length
    modifies dest
    ensures s == start + |replaceWith| && dest[..s] == old(dest[..start]) + replaceWith
  {
    s := start;
    for k := 0 to |replaceWith|
      invariant s == start + k && dest[..s] == old(dest[..start]) + replaceWith[..k]
    {
      Write(dest, s, replaceWith[k]);
      assert replaceWith[..k + 1] == replaceWith[..k] + [replaceWith[k]];
      s := s + 1;
    }
    assert replaceWith[..|replaceWith|] == replaceWith;
  }

  /** The characters of a match that was not finished, from the last one back. */
  method WriteTail(src: string, dest: array<char>, j: nat, s: nat, ghost whole: string)
    requires j <= |src| && j <= s && dest.Length >= |whole| && s - j <= dest.Length
    requires dest[..s - j] + src[|src| - j..] == whole
    modifies dest
    ensures s == |whole| && dest[..s] == whole
  {
    for k := 1 to j + 1
      invariant dest[..s - j] == old(dest[..s - j])
      invariant dest[s - (k - 1)..s] == src[|src| - (k - 1)..]
    {
      ghost var last := dest[s - (k - 1)..s];
      dest[s - k] := src[|src| - k];
      assert dest[s - k..s] == [src[|src| - k]] + last;
    }
    assert dest[..s] == dest[..s - j] + dest[s - j..s];
  }

  // ----- what the replacement is -----

  /** The text between the occurrences that are replaced. */
  function Pieces(src: string, find: string, i: nat): (p: seq<string>)
    requires find != [] && i <= |src|
    ensures p != []
    decreases |src| - i
  {
    if i == |src| then [[]]
    else if OccursAt(src, find, i) then [[]] + Pieces(src, find, i + |find|)
    else
      var p := Pieces(src, find, i + 1);
      [[src[i]] + p[0]] + p[1..]
  }

  function Joined(p: seq<string>, sep: string): string
    requires p != []
  {
    if |p| == 1 then p[0] else p[0] + sep + Joined(p[1..], sep)
  }

  lemma JoinedFirst(a: string, p: seq<string>, sep: string)
    requires p != []
    ensures Joined([a + p[0]] + p[1..], sep) == a + Joined(p, sep)
  {
    var q := [a + p[0]] + p[1..];
    if |p| > 1 {
      assert q[1..] == p[1..];
      assert a + p[0] + sep + Joined(p[1..], sep) == a + (p[0] + sep + Joined(p[1..], sep));
    }
  }

  lemma JoinedEmpty(p: seq<string>, sep: string)
    requires p != []
    ensures Joined([[]] + p, sep) == sep + Joined(p, sep)
  {
    assert ([[]] + p)[1..] == p;
    assert [] + sep == sep;
  }

  /** Joined with the search string the pieces are the source; joined with the replacement
      they are the result. */
  lemma {:induction false} PiecesJoined(src: string, find: string, replaceWith: string, i: nat)
    requires find != [] && i <= |src|
    ensures Joined(Pieces(src, find, i), find) == src[i..]
    ensures Joined(Pieces(src, find, i), replaceWith) == Replaced(src, find, replaceWith, i)
    decreases |src| - i
  {
    hide Joined;
    if i == |src| {
      OnePiece([], find);
      OnePiece([], replaceWith);
    } else if OccursAt(src, find, i) {
      var p := Pieces(src, find, i + |find|);
      PiecesJoined(src, find, replaceWith, i + |find|);
      JoinedEmpty(p, find);
      JoinedEmpty(p, replaceWith);
      assert src[i..] == src[i..i + |find|] + src[i + |find|..];
    } else {
      var p := Pieces(src, find, i + 1);
      PiecesJoined(src, find, replaceWith, i + 1);
      JoinedFirst([src[i]], p, find);
      JoinedFirst([src[i]], p, replaceWith);
      assert src[i..] == [src[i]] + src[i + 1..];
    }
  }

  lemma OnePiece(s: string, sep: string)
    ensures Joined([s], sep) == s
  {
  }

  /** No occurrence starts before the end of a piece: in the last one there is none at all,
      and behind each other one the next occurrence is the one that is replaced. */
  predicate Leftmost(p: seq<string>, find: string)
    requires p != []
    decreases |p|
  {
    && (forall k: nat :: k < |p[0]| ==> !OccursAt(Joined(p, find), find, k))
    && (|p| > 1 ==> Leftmost(p[1..], find))
  }

  lemma ShiftedOccurrence(src: string, find: string, i: nat, k: nat)
    requires i <= |src|
    ensures OccursAt(src[i..], find, k) <==> OccursAt(src, find, i + k)
  {
    if i + k + |find| <= |src| { assert src[i..][k..k + |find|] == src[i + k..i + k + |find|]; }
  }

  /** A piece that is longer by a character at which no occurrence starts. */
  lemma LongerPiece(src: string, find: string, i: nat, p: seq<string>, q: seq<string>)
    requires i < |src| && !OccursAt(src, find, i) && p != [] && q == [[src[i]] + p[0]] + p[1..]
    requires Joined(p, find) == src[i + 1..] && Joined(q, find) == src[i..] && Leftmost(p, find)
    ensures Leftmost(q, find)
  {
    hide Joined, OccursAt;
    assert q[1..] == p[1..];
    forall k: nat | k < |q[0]| ensures !OccursAt(Joined(q, find), find, k) {
      ShiftedOccurrence(src, find, i, k);
      if k > 0 {
        ShiftedOccurrence(src, find, i + 1, k - 1);
        assert !OccursAt(Joined(p, find), find, k - 1);
      }
    }
  }

  lemma {:induction false} PiecesLeftmost(src: string, find: string, i: nat)
    requires find != [] && i <= |src|
    ensures Leftmost(Pieces(src, find, i), find)
    decreases |src| - i
  {
    hide Joined;
    if i < |src| {
      if OccursAt(src, find, i) {
        PiecesLeftmost(src, find, i + |find|);
        var p := Pieces(src, find, i + |find|);
        assert ([[]] + p)[1..] == p;
      } else {
        var p, q := Pieces(src, find, i + 1), Pieces(src, find, i);
        PiecesLeftmost(src, find, i + 1);
        PiecesJoined(src, find, [], i);
        PiecesJoined(src, find, [], i + 1);
        LongerPiece(src, find, i, p, q);
      }
    }
  }
}
