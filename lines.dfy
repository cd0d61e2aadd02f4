/**
 * `Array.prototype.join` with a one-character separator, which turns the
 * list of DOT lines into one document, and `Split`, the inverse used to
 * state that the join loses no line.
 */
module Lines {

  /** The position of the first `c` in `s`. */
  function IndexOf(s: string, c: char): (i: nat)
    requires c in s
    ensures i < |s| && s[i] == c
    ensures c !in s[..i]
  {
    if s[0] == c then 0
    else
      assert s == [s[0]] + s[1..];
      var j := IndexOf(s[1..], c);
      assert s[..j + 1] == [s[0]] + s[1..][..j];
      j + 1
  }

  /** When `x` has no `c`, the first `c` of `x + y` is the first `c` of `y`. */
  lemma IndexOfAfter(x: string, y: string, c: char)
    requires c !in x && c in y
    ensures c in x + y && IndexOf(x + y, c) == |x| + IndexOf(y, c)
  {
    var s := x + y;
    var j := IndexOf(y, c);
    assert s[|x| + j] == c;
    assert s[..|x| + j] == x + y[..j];
  }

  /** A separator right after a separator-free prefix ends the first part. */
  lemma SplitCons(x: string, rest: string, sep: char)
    requires sep !in x
    ensures Split(x + [sep] + rest, sep) == [x] + Split(rest, sep)
  {
    var s := x + [sep] + rest;
    assert s == x + ([sep] + rest);
    IndexOfAfter(x, [sep] + rest, sep);
    assert s[..|x|] == x;
    assert s[|x| + 1..] == rest;
  }

  /** `lines.join(sep)`: the lines with one separator between neighbours. */
  function Join(lines: seq<string>, sep: char): string
  {
    if |lines| == 0 then ""
    else if |lines| == 1 then lines[0]
    else lines[0] + [sep] + Join(lines[1..], sep)
  }

  /** The maximal runs of `s` without `sep`, in order; the inverse of `Join`. */
  function Split(s: string, sep: char): (parts: seq<string>)
    ensures |parts| >= 1
    ensures forall k :: 0 <= k < |parts| ==> sep !in parts[k]
    decreases |s|
  {
    if sep !in s then [s]
    else
      var i := IndexOf(s, sep);
      [s[..i]] + Split(s[i + 1..], sep)
  }

  /** Splitting a join gives back the lines, provided no line holds the separator. */
  lemma {:induction false} SplitJoin(lines: seq<string>, sep: char)
    requires |lines| >= 1
    requires forall k :: 0 <= k < |lines| ==> sep !in lines[k]
    ensures Split(Join(lines, sep), sep) == lines
  {
    if |lines| > 1 {
      SplitCons(lines[0], Join(lines[1..], sep), sep);
      SplitJoin(lines[1..], sep);
      assert lines == [lines[0]] + lines[1..];
    }
  }
}
