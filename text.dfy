/** The string primitives the authorization gate and the handlers rely on. */
module Text {

  /** Go's `strings.Split(s, " ")`: the pieces of `s` between single spaces.
      An empty string gives one empty piece, and every space starts a new piece,
      so two adjacent spaces give an empty piece between them. */
  function Split(s: string): (parts: seq<string>)
    ensures |parts| >= 1
    decreases |s|
  {
    if |s| == 0 then [""]
    else
      var rest := Split(s[1..]);
      if s[0] == ' ' then [""] + rest
      else [[s[0]] + rest[0]] + rest[1..]
  }

  /** The inverse of Split: the pieces glued back with single spaces. */
  function Join(parts: seq<string>): (s: string)
    requires |parts| >= 1
    decreases |parts|
  {
    if |parts| == 1 then parts[0] else parts[0] + " " + Join(parts[1..])
  }

  /** The number of spaces in `s`. */
  function Spaces(s: string): (n: nat)
    decreases |s|
  {
    if |s| == 0 then 0 else (if s[0] == ' ' then 1 else 0) + Spaces(s[1..])
  }

  /** Splitting loses nothing: joining the pieces gives back the input. */
  lemma {:induction false} JoinSplit(s: string)
    ensures Join(Split(s)) == s
    decreases |s|
  {
    if |s| > 0 {
      JoinSplit(s[1..]);
      var rest := Split(s[1..]);
      if s[0] == ' ' {
        assert Split(s) == [""] + rest;
        assert Join(Split(s)) == "" + " " + Join(rest);
        assert s == [s[0]] + s[1..];
      } else {
        var first := [s[0]] + rest[0];
        assert Split(s) == [first] + rest[1..];
        if |rest| == 1 {
          assert Join(Split(s)) == first;
          assert s == [s[0]] + s[1..];
        } else {
          assert Join(Split(s)) == first + " " + Join(rest[1..]);
          assert Join(rest) == rest[0] + " " + Join(rest[1..]);
          assert s == [s[0]] + s[1..];
        }
      }
    }
  }

  /** No piece contains the separator. */
  lemma {:induction false} SplitPiecesHaveNoSpace(s: string)
    ensures forall i :: 0 <= i < |Split(s)| ==> ' ' !in Split(s)[i]
    decreases |s|
  {
    if |s| > 0 {
      SplitPiecesHaveNoSpace(s[1..]);
    }
  }

  /** There is one more piece than there are spaces. */
  lemma {:induction false} SplitCount(s: string)
    ensures |Split(s)| == Spaces(s) + 1
    decreases |s|
  {
    if |s| > 0 {
      SplitCount(s[1..]);
    }
  }

  /** A string without spaces is a single piece. */
  lemma {:induction false} SplitWithoutSpace(s: string)
    requires ' ' !in s
    ensures Split(s) == [s]
    decreases |s|
  {
    if |s| > 0 {
      assert s[0] in s;
      assert forall c :: c in s[1..] ==> c in s;
      SplitWithoutSpace(s[1..]);
      assert s == [s[0]] + s[1..];
    }
  }

  /** Two space-free pieces joined by one space split back into exactly those two pieces. */
  lemma {:induction false} SplitPair(a: string, b: string)
    requires ' ' !in a && ' ' !in b
    ensures Split(a + " " + b) == [a, b]
    decreases |a|
  {
    var s := a + " " + b;
    if |a| == 0 {
      assert s == " " + b;
      assert s[1..] == b;
      SplitWithoutSpace(b);
    } else {
      assert a[0] in a;
      assert forall c :: c in a[1..] ==> c in a;
      SplitPair(a[1..], b);
      assert s[0] == a[0];
      assert s[1..] == a[1..] + " " + b;
      assert [a[0]] + a[1..] == a;
    }
  }

  /** ASCII lower-casing of one character; every other character is left as it is. */
  function LowerChar(c: char): (r: char)
    ensures 'A' <= c <= 'Z' ==> 'a' <= r <= 'z'
    ensures !('A' <= c <= 'Z') ==> r == c
  {
    if 'A' <= c <= 'Z' then (c as int + 32) as char else c
  }

  /** Lower-casing of a whole string, character by character. */
  function Lower(s: string): (r: string)
    ensures |r| == |s|
    ensures forall i :: 0 <= i < |s| ==> r[i] == LowerChar(s[i])
  {
    seq(|s|, i requires 0 <= i < |s| => LowerChar(s[i]))
  }

  /** Lower-casing neither adds nor removes a space. */
  lemma LowerKeepsSpaces(s: string)
    ensures ' ' in s <==> ' ' in Lower(s)
  {
    if ' ' in s {
      var i :| 0 <= i < |s| && s[i] == ' ';
      assert Lower(s)[i] == ' ';
    }
    if ' ' in Lower(s) {
      var i :| 0 <= i < |Lower(s)| && Lower(s)[i] == ' ';
      assert s[i] == ' ';
    }
  }

  /** The number of bytes the UTF-8 encoding of `c` takes. */
  function Utf8Width(c: char): (w: nat)
    ensures 1 <= w <= 4
    ensures w == 1 <==> c as int < 0x80
  {
    if c as int < 0x80 then 1
    else if c as int < 0x800 then 2
    else if c as int < 0x10000 then 3
    else 4
  }

  /** Go's `len(s)` on a string: the length of its UTF-8 encoding in bytes, which
      is at least one byte per character and at most four. */
  function ByteLength(s: string): (n: nat)
    ensures |s| <= n <= 4 * |s|
    decreases |s|
  {
    if |s| == 0 then 0 else Utf8Width(s[0]) + ByteLength(s[1..])
  }

  /** For ASCII text the byte length is the character count. */
  lemma {:induction false} ByteLengthAscii(s: string)
    requires forall i :: 0 <= i < |s| ==> s[i] as int < 0x80
    ensures ByteLength(s) == |s|
    decreases |s|
  {
    if |s| > 0 {
      ByteLengthAscii(s[1..]);
    }
  }
}
