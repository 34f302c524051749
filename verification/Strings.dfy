/** The little of Python's `str` the models need: `strip`, `splitlines` and `"\n".join`. */
module Strings {
  predicate IsSpace(c: char) {
    c == ' ' || c == '\t' || c == '\r' || IsLineBreak(c)
    || c == '\U{001f}' || c == '\U{00a0}' || c == '\U{1680}' || '\U{2000}' <= c <= '\U{200a}'
    || c == '\U{202f}' || c == '\U{205f}' || c == '\U{3000}'
  }

  /** The characters `str.splitlines` breaks at. A carriage return never reaches it: reading
      a file in text mode has turned it into a newline. */
  predicate IsLineBreak(c: char) {
    c == '\n' || c == '\U{000b}' || c == '\U{000c}'
    || '\U{001c}' <= c <= '\U{001e}' || c == '\U{0085}' || c == '\U{2028}' || c == '\U{2029}'
  }

  // -------------------------------------------------------------------------- strip

  function StripLeft(s: string): (r: string)
    ensures r == "" || !IsSpace(r[0])
    ensures |r| <= |s| && r == s[|s| - |r|..]
  {
    if s == "" || !IsSpace(s[0]) then s else StripLeft(s[1..])
  }

  function StripRight(s: string): (r: string)
    ensures r == "" || !IsSpace(r[|r| - 1])
    ensures r <= s
  {
    if s == "" || !IsSpace(s[|s| - 1]) then s else StripRight(s[..|s| - 1])
  }

  function Strip(s: string): (r: string)
    ensures r == "" || (!IsSpace(r[0]) && !IsSpace(r[|r| - 1]))
    ensures |r| <= |s|
  {
    StripRight(StripLeft(s))
  }

  ghost predicate IsStripped(s: string) {
    s == "" || (!IsSpace(s[0]) && !IsSpace(s[|s| - 1]))
  }

  lemma StripOfStripped(s: string)
    requires IsStripped(s)
    ensures Strip(s) == s && Strip(s + "\n") == s
  {
    if s == "" {
      assert StripLeft("\n") == StripLeft("\n"[1..]);
    } else {
      assert StripRight(s + "\n") == StripRight((s + "\n")[..|s|]);
      assert (s + "\n")[..|s|] == s;
    }
  }

  lemma StripAfterSpace(s: string)
    requires IsStripped(s)
    ensures Strip([' '] + s) == s
  {
    assert ([' '] + s)[1..] == s;
    assert StripLeft([' '] + s) == StripLeft(s);
    StripOfStripped(s);
  }

  // --------------------------------------------------------------------- splitlines

  /** The stretches between line breaks: always one more than there are breaks. */
  function Pieces(s: string): (r: seq<string>)
    ensures r != []
  {
    if s == "" then [""]
    else if IsLineBreak(s[0]) then [""] + Pieces(s[1..])
    else
      var rest := Pieces(s[1..]);
      [[s[0]] + rest[0]] + rest[1..]
  }

  /** `str.splitlines`: no empty line after a final break. */
  function SplitLines(s: string): seq<string> {
    var pieces := Pieces(s);
    if pieces[|pieces| - 1] == "" then pieces[..|pieces| - 1] else pieces
  }

  function Join(lines: seq<string>): string {
    if lines == [] then ""
    else if |lines| == 1 then lines[0]
    else lines[0] + "\n" + Join(lines[1..])
  }

  ghost predicate Unbroken(s: string) {
    forall i :: 0 <= i < |s| ==> !IsLineBreak(s[i])
  }

  /** The only line breaks in it are newlines. */
  ghost predicate OnlyNewlines(s: string) {
    forall i :: 0 <= i < |s| && IsLineBreak(s[i]) ==> s[i] == '\n'
  }

  lemma {:induction false} PiecesOfUnbroken(s: string)
    requires Unbroken(s)
    ensures Pieces(s) == [s]
  {
    if s != "" {
      PiecesOfUnbroken(s[1..]);
      assert [s[0]] + s[1..] == s;
    }
  }

  lemma {:induction false} PiecesUnbroken(s: string, k: nat)
    requires k < |Pieces(s)|
    ensures Unbroken(Pieces(s)[k])
  {
    if s != "" {
      var rest := Pieces(s[1..]);
      if IsLineBreak(s[0]) {
        if k > 0 {
          PiecesUnbroken(s[1..], k - 1);
        }
      } else {
        PiecesUnbroken(s[1..], k);
      }
    }
  }

  lemma {:induction false} PiecesConcat(a: string, b: string)
    ensures Pieces(a + "\n" + b) == Pieces(a) + Pieces(b)
  {
    var t := a + "\n" + b;
    if a == "" {
      assert t[1..] == b;
    } else {
      PiecesConcat(a[1..], b);
      assert t[1..] == a[1..] + "\n" + b && t[0] == a[0];
      ConsFirst(a[0], Pieces(a[1..]), Pieces(b));
      assert [""] + (Pieces(a[1..]) + Pieces(b)) == [""] + Pieces(a[1..]) + Pieces(b);
    }
  }

  lemma ConsFirst(c: char, rest: seq<string>, more: seq<string>)
    requires rest != []
    ensures [[c] + (rest + more)[0]] + (rest + more)[1..] == [[c] + rest[0]] + rest[1..] + more
  {
    assert (rest + more)[1..] == rest[1..] + more;
  }

  /** Splitting a text at a newline splits its lines. */
  lemma SplitLinesConcat(a: string, b: string)
    ensures SplitLines(a + "\n" + b) == Pieces(a) + SplitLines(b)
  {
    PiecesConcat(a, b);
    var left, right := Pieces(a), Pieces(b);
    assert (left + right)[|left + right| - 1] == right[|right| - 1];
    assert (left + right)[..|left + right| - 1] == left + right[..|right| - 1];
  }

  lemma {:induction false} JoinOfPieces(s: string)
    requires OnlyNewlines(s)
    ensures Join(Pieces(s)) == s
  {
    if s != "" {
      var rest := Pieces(s[1..]);
      JoinOfPieces(s[1..]);
      if IsLineBreak(s[0]) {
        assert ([""] + rest)[1..] == rest;
        assert s == "" + "\n" + s[1..];
      } else {
        var all := [[s[0]] + rest[0]] + rest[1..];
        assert all[1..] == rest[1..];
        assert s == [s[0]] + s[1..];
        if |rest| > 1 {
          assert [s[0]] + rest[0] + "\n" + Join(rest[1..]) == [s[0]] + (rest[0] + "\n" + Join(rest[1..]));
        }
      }
    }
  }

  lemma {:induction false} JoinConcat(a: seq<string>, b: seq<string>)
    requires a != [] && b != []
    ensures Join(a + b) == Join(a) + "\n" + Join(b)
  {
    if |a| == 1 {
      assert (a + b)[1..] == b;
    } else {
      JoinConcat(a[1..], b);
      assert (a + b)[1..] == a[1..] + b;
      assert a[0] + "\n" + (Join(a[1..]) + "\n" + Join(b)) == a[0] + "\n" + Join(a[1..]) + "\n" + Join(b);
    }
  }

  lemma {:induction false} JoinOnlyNewlines(lines: seq<string>)
    requires forall i :: 0 <= i < |lines| ==> Unbroken(lines[i])
    ensures OnlyNewlines(Join(lines))
  {
    if |lines| > 1 {
      JoinOnlyNewlines(lines[1..]);
    }
  }

  lemma {:induction false} PiecesOfJoin(lines: seq<string>)
    requires lines != [] && forall i :: 0 <= i < |lines| ==> Unbroken(lines[i])
    ensures Pieces(Join(lines)) == lines
  {
    PiecesOfUnbroken(lines[0]);
    if |lines| > 1 {
      PiecesOfJoin(lines[1..]);
      PiecesConcat(lines[0], Join(lines[1..]));
      assert lines == [lines[0]] + lines[1..];
    } else {
      assert lines == [lines[0]];
    }
  }

  /** The pieces of a prefix are prefixes of the pieces. */
  lemma {:induction false} PiecesOfPrefix(t: string, s: string, k: nat)
    requires t <= s && k < |Pieces(t)|
    ensures k < |Pieces(s)| && Pieces(t)[k] <= Pieces(s)[k]
  {
    if t != "" {
      assert t[0] == s[0] && t[1..] <= s[1..];
      if IsLineBreak(s[0]) {
        if k > 0 {
          PiecesOfPrefix(t[1..], s[1..], k - 1);
        }
      } else {
        PiecesOfPrefix(t[1..], s[1..], k);
      }
    }
  }

  /** Every piece of a suffix but its first is a piece of the whole, and not the first. */
  lemma {:induction false} PiecesOfSuffix(s: string, from: nat, k: nat) returns (at: nat)
    requires from <= |s| && 0 < k < |Pieces(s[from..])|
    ensures 0 < at < |Pieces(s)| && Pieces(s)[at] == Pieces(s[from..])[k]
    decreases from
  {
    if from == 0 {
      assert s[0..] == s;
      at := k;
    } else {
      assert s[1..][from - 1..] == s[from..];
      at := PiecesOfSuffix(s[1..], from - 1, k);
      if IsLineBreak(s[0]) {
        at := at + 1;
      }
    }
  }
}
