/** `String.prototype.split` with a one-character separator, and its inverse
    `Array.prototype.join`. */
module Split {

  /** Index of the first occurrence of `c` in `s`. */
  function FirstIndex(s: string, c: char): (i: nat)
    requires c in s
    ensures i < |s| && s[i] == c && c !in s[..i]
  {
    if s[0] == c then 0 else FirstIndex(s[1..], c) + 1
  }

  /** `s.split(sep)`: the pieces between separators, in order; an input
      without the separator is one piece, and the empty input is `[""]`. */
  function SplitOn(s: string, sep: char): (pieces: seq<string>)
    ensures |pieces| >= 1
    ensures forall k :: 0 <= k < |pieces| ==> sep !in pieces[k]
    decreases |s|
  {
    if sep !in s then [s]
    else
      var i := FirstIndex(s, sep);
      [s[..i]] + SplitOn(s[i + 1..], sep)
  }

  /** `pieces.join(sep)`. */
  function Join(pieces: seq<string>, sep: char): string
    requires |pieces| >= 1
  {
    if |pieces| == 1 then pieces[0] else pieces[0] + [sep] + Join(pieces[1..], sep)
  }

  /** Joining a piece in front of other pieces puts one separator between. */
  lemma JoinCons(x: string, pieces: seq<string>, sep: char)
    requires |pieces| >= 1
    ensures Join([x] + pieces, sep) == x + [sep] + Join(pieces, sep)
  {
    assert ([x] + pieces)[1..] == pieces;
  }

  /** Joining the pieces with the separator gives back the input. */
  lemma {:induction false} JoinSplit(s: string, sep: char)
    ensures Join(SplitOn(s, sep), sep) == s
    decreases |s|
  {
    if sep in s {
      var i := FirstIndex(s, sep);
      var rest := s[i + 1..];
      JoinSplit(rest, sep);
      JoinCons(s[..i], SplitOn(rest, sep), sep);
      assert s == s[..i] + [sep] + rest;
    }
  }

  /** Splitting joined pieces that do not contain the separator gives back the pieces. */
  lemma {:induction false} SplitJoin(pieces: seq<string>, sep: char)
    requires |pieces| >= 1
    requires forall k :: 0 <= k < |pieces| ==> sep !in pieces[k]
    ensures SplitOn(Join(pieces, sep), sep) == pieces
    decreases |pieces|
  {
    var s := Join(pieces, sep);
    if |pieces| > 1 {
      var rest := Join(pieces[1..], sep);
      assert s == pieces[0] + [sep] + rest;
      assert sep in s by { assert s[|pieces[0]|] == sep; }
      var i := FirstIndex(s, sep);
      assert s[..|pieces[0]|] == pieces[0];
      assert s[|pieces[0]|] == sep;
      assert i == |pieces[0]|;
      assert s[..i] == pieces[0];
      assert s[i + 1..] == rest;
      SplitJoin(pieces[1..], sep);
    }
  }

  /** The first piece is everything before the first separator. */
  lemma FirstPiece(s: string, sep: char)
    ensures SplitOn(s, sep)[0] == if sep in s then s[..FirstIndex(s, sep)] else s
  {
  }

  /** Without a separator there is exactly one piece, the whole input. */
  lemma SingleIffNoSeparator(s: string, sep: char)
    ensures |SplitOn(s, sep)| == 1 <==> sep !in s
  {
    if sep in s {
      var i := FirstIndex(s, sep);
      assert |SplitOn(s, sep)| == 1 + |SplitOn(s[i + 1..], sep)|;
    }
  }

  /** A separator at `i` with none before it splits off `s[..i]` as the first piece. */
  lemma SplitAt(s: string, sep: char, i: nat)
    requires i < |s| && s[i] == sep && sep !in s[..i]
    ensures SplitOn(s, sep) == [s[..i]] + SplitOn(s[i + 1..], sep)
  {
    assert sep in s;
    var k := FirstIndex(s, sep);
    assert forall m :: 0 <= m < i ==> s[..i][m] == s[m];
    assert forall m :: 0 <= m < k ==> s[..k][m] == s[m];
    assert k == i;
  }

  /** The first piece ends at the first separator, or at the end of the input. */
  lemma FirstPieceUpTo(s: string, sep: char, j: nat)
    requires j <= |s| && sep !in s[..j]
    requires j == |s| || s[j] == sep
    ensures SplitOn(s, sep)[0] == s[..j]
  {
    if j < |s| {
      SplitAt(s, sep, j);
    } else {
      assert s[..j] == s;
    }
  }
}
