/** String operations the calculator performs on its operand text:
    counting decimal points, JavaScript's `slice(0, -1)` and `split(sep)`. */
module Text {

  /** Number of occurrences of `c` in `s`. */
  function Count(s: string, c: char): (n: nat)
    ensures n <= |s|
    ensures n == 0 <==> c !in s
  {
    if s == [] then 0 else (if s[0] == c then 1 else 0) + Count(s[1..], c)
  }

  lemma {:induction false} CountConcat(a: string, b: string, c: char)
    ensures Count(a + b, c) == Count(a, c) + Count(b, c)
  {
    if a == [] {
      assert a + b == b;
    } else {
      assert (a + b)[1..] == a[1..] + b;
      CountConcat(a[1..], b, c);
    }
  }

  /** Position of the first `c` in `s` (`indexOf`). */
  function FirstIndex(s: string, c: char): (i: nat)
    requires c in s
    ensures i < |s| && s[i] == c && c !in s[..i]
  {
    if s[0] == c then 0
    else
      assert c in s[1..];
      1 + FirstIndex(s[1..], c)
  }

  /** `s.slice(0, -1)`: everything but the last character; the empty string stays empty. */
  function DropLast(s: string): (r: string)
    ensures s == [] ==> r == []
    ensures s != [] ==> r + [s[|s| - 1]] == s
  {
    if s == [] then [] else s[..|s| - 1]
  }

  /** `s.split(sep)`: the maximal separator-free pieces, left to right; one
      piece more than there are separators. */
  function Split(s: string, sep: char): (parts: seq<string>)
    ensures |parts| == Count(s, sep) + 1
    ensures forall k :: 0 <= k < |parts| ==> sep !in parts[k]
    decreases |s|
  {
    if sep !in s then [s]
    else
      var i := FirstIndex(s, sep);
      assert s == s[..i] + [sep] + s[i + 1..];
      CountConcat(s[..i] + [sep], s[i + 1..], sep);
      CountConcat(s[..i], [sep], sep);
      [s[..i]] + Split(s[i + 1..], sep)
  }

  /** `parts.join(sep)`, the inverse of `Split`. */
  function Join(parts: seq<string>, sep: char): string
    requires |parts| >= 1
  {
    if |parts| == 1 then parts[0] else parts[0] + [sep] + Join(parts[1..], sep)
  }

  /** Splitting loses nothing: joining the pieces back gives the text. */
  lemma {:induction false} SplitJoin(s: string, sep: char)
    ensures Join(Split(s, sep), sep) == s
    decreases |s|
  {
    if sep in s {
      var i := FirstIndex(s, sep);
      var head, tail := s[..i], s[i + 1..];
      var rest := Split(tail, sep);
      assert Split(s, sep) == [head] + rest;
      assert ([head] + rest)[1..] == rest;
      calc {
        Join(Split(s, sep), sep);
        head + [sep] + Join(rest, sep);
        { SplitJoin(tail, sep); }
        head + [sep] + tail;
        { assert s == s[..i] + [sep] + s[i + 1..]; }
        s;
      }
    }
  }

  /** The first piece is the text before the first separator, the second
      the text between the first separator and the next one (or the end). */
  lemma SplitFirstPieces(s: string, sep: char)
    requires sep in s
    ensures var i := FirstIndex(s, sep);
      && Split(s, sep)[0] == s[..i]
      && Split(s, sep)[1] == Split(s[i + 1..], sep)[0]
      && (sep !in s[i + 1..] ==> Split(s, sep)[1] == s[i + 1..])
  {
  }
}
