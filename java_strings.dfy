/**
 * The parts of java.lang.String that the CSV parsers rely on:
 * trim(), split(String) with a one-character separator, and endsWith.
 */
module JavaStrings {

  /** String.trim removes every leading and trailing character at or below U+0020. */
  predicate IsTrimmable(c: char) {
    c <= ' '
  }

  /** A string that trim() leaves as it is. */
  predicate IsTrimmed(s: string) {
    s == [] || (!IsTrimmable(s[0]) && !IsTrimmable(s[|s| - 1]))
  }

  /** The leading trimmable characters removed. */
  function TrimStart(s: string): (r: string)
    ensures |r| <= |s| && r == s[|s| - |r|..]
    ensures r == [] || !IsTrimmable(r[0])
    ensures forall k :: 0 <= k < |s| - |r| ==> IsTrimmable(s[k])
  {
    if s != [] && IsTrimmable(s[0]) then TrimStart(s[1..]) else s
  }

  /** The trailing trimmable characters removed. */
  function TrimEnd(s: string): (r: string)
    ensures |r| <= |s| && r == s[..|r|]
    ensures r == [] || !IsTrimmable(r[|r| - 1])
    ensures forall k :: |r| <= k < |s| ==> IsTrimmable(s[k])
  {
    if s != [] && IsTrimmable(s[|s| - 1]) then TrimEnd(s[..|s| - 1]) else s
  }

  /**
   * r is what trim() makes of s: a slice s[i..i + |r|] with no trimmable
   * character at either end, and only trimmable characters cut off.
   */
  ghost predicate IsTrimOf(r: string, s: string) {
    IsTrimmed(r) && exists i :: TrimmedAt(r, s, i)
  }

  /** r is s with i trimmable characters cut from the front and only trimmable ones from the back. */
  ghost predicate TrimmedAt(r: string, s: string, i: int) {
    && 0 <= i <= |s| - |r|
    && r == s[i..i + |r|]
    && (forall k :: 0 <= k < i ==> IsTrimmable(s[k]))
    && (forall k :: i + |r| <= k < |s| ==> IsTrimmable(s[k]))
  }

  /** String.trim. */
  function Trim(s: string): (r: string)
    ensures IsTrimOf(r, s)
    ensures r == [] <==> forall k :: 0 <= k < |s| ==> IsTrimmable(s[k])
  {
    var t := TrimStart(s);
    var r := TrimEnd(t);
    assert r == s[|s| - |t|..|s| - |t| + |r|];
    assert forall k :: |s| - |t| + |r| <= k < |s| ==> s[k] == t[k - (|s| - |t|)];
    assert TrimmedAt(r, s, |s| - |t|);
    r
  }

  /** trim() only removes characters: a character absent from s is absent from its trim. */
  lemma TrimKeepsOut(s: string, c: char)
    requires c !in s
    ensures c !in Trim(s)
  {
    var r := Trim(s);
    var i :| TrimmedAt(r, s, i);
    forall j | 0 <= j < |r|
      ensures r[j] != c
    {
      assert r[j] == s[i + j];
    }
  }

  /** trim() of a trimmed string is the string itself, so trim() is idempotent. */
  lemma TrimOfTrimmed(s: string)
    requires IsTrimmed(s)
    ensures Trim(s) == s
  {
  }

  /** Every piece of s between separators, empty pieces included: one more piece than separators. */
  function Pieces(s: string, sep: char): (r: seq<string>)
    ensures |r| >= 1
    ensures forall k :: 0 <= k < |r| ==> sep !in r[k]
    ensures sep !in s ==> r == [s]
  {
    if s == [] then [[]]
    else
      var rest := Pieces(s[1..], sep);
      assert s == [s[0]] + s[1..];
      if s[0] == sep then [[]] + rest else [[s[0]] + rest[0]] + rest[1..]
  }

  /** The pieces written out again with the separator between them. */
  function Join(pieces: seq<string>, sep: char): string
    requires pieces != []
  {
    if |pieces| == 1 then pieces[0] else pieces[0] + [sep] + Join(pieces[1..], sep)
  }

  /** Joining the pieces gives back the string. */
  lemma {:induction false} JoinPieces(s: string, sep: char)
    ensures Join(Pieces(s, sep), sep) == s
  {
    if s != [] {
      var rest := Pieces(s[1..], sep);
      JoinPieces(s[1..], sep);
      if s[0] != sep {
        if |rest| == 1 {
        } else {
          assert ([[s[0]] + rest[0]] + rest[1..])[1..] == rest[1..];
        }
      }
    }
  }

  /** A piece without separator followed by a separator is split off as one piece. */
  lemma {:induction false} PiecesAfterSeparator(p: string, rest: string, sep: char)
    requires sep !in p
    ensures Pieces(p + [sep] + rest, sep) == [p] + Pieces(rest, sep)
  {
    var s := p + [sep] + rest;
    if p == [] {
      assert s[1..] == rest;
    } else {
      assert s[1..] == p[1..] + [sep] + rest;
      PiecesAfterSeparator(p[1..], rest, sep);
      assert [p[0]] + p[1..] == p;
    }
  }

  /** Splitting a join of separator-free pieces gives back the pieces. */
  lemma {:induction false} PiecesJoin(pieces: seq<string>, sep: char)
    requires pieces != []
    requires forall k :: 0 <= k < |pieces| ==> sep !in pieces[k]
    ensures Pieces(Join(pieces, sep), sep) == pieces
  {
    if |pieces| > 1 {
      PiecesJoin(pieces[1..], sep);
      PiecesAfterSeparator(pieces[0], Join(pieces[1..], sep), sep);
    }
  }

  /** The longest prefix of xs that does not end in an empty string. */
  function DropTrailingEmpty(xs: seq<string>): (r: seq<string>)
    ensures r <= xs
    ensures r == [] || r[|r| - 1] != []
    ensures forall k :: |r| <= k < |xs| ==> xs[k] == []
  {
    if xs != [] && xs[|xs| - 1] == [] then DropTrailingEmpty(xs[..|xs| - 1]) else xs
  }

  /** Putting a string in front of xs keeps it unless everything after it is dropped. */
  lemma {:induction false} DropTrailingEmptyPrepend(h: string, xs: seq<string>)
    ensures DropTrailingEmpty([h] + xs)
         == if DropTrailingEmpty(xs) == [] then DropTrailingEmpty([h]) else [h] + DropTrailingEmpty(xs)
  {
    if xs != [] && xs[|xs| - 1] == [] {
      assert ([h] + xs)[..|xs|] == [h] + xs[..|xs| - 1];
      DropTrailingEmptyPrepend(h, xs[..|xs| - 1]);
    } else if xs == [] {
      assert [h] + xs == [h];
    }
  }

  /**
   * String.split with a single ordinary character as the pattern and no limit:
   * when the separator does not occur the string itself is the only element;
   * otherwise the pieces, with the trailing empty ones removed.
   */
  function Split(s: string, sep: char): (r: seq<string>)
    ensures forall k :: 0 <= k < |r| ==> sep !in r[k]
    ensures s == [] ==> r == [[]]
    ensures s != [] ==> r <= Pieces(s, sep) && (r == [] || r[|r| - 1] != [])
    ensures s != [] ==> forall k :: |r| <= k < |Pieces(s, sep)| ==> Pieces(s, sep)[k] == []
  {
    if sep !in s then [s] else DropTrailingEmpty(Pieces(s, sep))
  }

  /** The pieces of "A,1.0,": the last one is empty. */
  lemma PiecesWithTrailingSeparator()
    ensures Pieces("A,1.0,", ',') == ["A", "1.0", ""]
  {
    var tail := "1.0,";
    assert "A,1.0," == "A" + [','] + tail;
    assert tail == "1.0" + [','] + "";
    PiecesAfterSeparator("1.0", "", ',');
    PiecesAfterSeparator("A", tail, ',');
  }

  /** A trailing empty field is not a field: "A,1.0," has two. */
  lemma TrailingEmptyFieldDropped()
    ensures Split("A,1.0,", ',') == ["A", "1.0"]
  {
    PiecesWithTrailingSeparator();
    var pieces := ["A", "1.0", ""];
    assert "A,1.0,"[1] == ',';
    assert pieces[..2] == ["A", "1.0"];
    assert DropTrailingEmpty(pieces) == DropTrailingEmpty(["A", "1.0"]);
  }

  /** String.endsWith: s is some prefix of itself followed by suffix. */
  predicate EndsWith(s: string, suffix: string): (b: bool)
    ensures b <==> exists i :: 0 <= i <= |s| && s == s[..i] + suffix
  {
    assert forall i :: 0 <= i <= |s| && s == s[..i] + suffix ==> |suffix| <= |s| && s[|s| - |suffix|..] == suffix;
    assert |suffix| <= |s| ==> s == s[..|s| - |suffix|] + s[|s| - |suffix|..];
    |suffix| <= |s| && s[|s| - |suffix|..] == suffix
  }
}
