/**
 * PHP's `explode($delimiter, $string)` for a one-character delimiter, on
 * strings as sequences of characters, together with its inverse `implode`.
 *
 * `explode` never returns an empty array: the empty string yields the single
 * segment "", and every occurrence of the delimiter starts a new segment, so
 * a string with k delimiters yields k + 1 segments.
 */
module Explode {
  /** Number of occurrences of `d` in `s`. */
  function Occurrences(s: string, d: char): (n: nat)
    ensures n <= |s|
    ensures n == 0 <==> d !in s
  {
    if |s| == 0 then 0
    else (if s[0] == d then 1 else 0) + Occurrences(s[1..], d)
  }

  lemma {:induction false} OccurrencesAppend(a: string, b: string, d: char)
    ensures Occurrences(a + b, d) == Occurrences(a, d) + Occurrences(b, d)
    decreases |a|
  {
    if |a| == 0 {
      assert a + b == b;
    } else {
      assert (a + b)[1..] == a[1..] + b;
      OccurrencesAppend(a[1..], b, d);
    }
  }

  /** Position of the first `d` in `s`. */
  function FirstIndex(s: string, d: char): (i: nat)
    requires d in s
    ensures i < |s| && s[i] == d && d !in s[..i]
  {
    if s[0] == d then 0
    else
      var j := FirstIndex(s[1..], d);
      assert s[..j + 1] == [s[0]] + s[1..][..j];
      j + 1
  }

  /** `explode(d, s)`: the maximal delimiter-free segments of `s`, in order. */
  function Split(s: string, d: char): (parts: seq<string>)
    ensures |parts| == Occurrences(s, d) + 1
    ensures forall i :: 0 <= i < |parts| ==> d !in parts[i]
    decreases |s|
  {
    if d !in s then [s]
    else
      var i := FirstIndex(s, d);
      assert s == s[..i] + [d] + s[i + 1..];
      OccurrencesAppend(s[..i] + [d], s[i + 1..], d);
      OccurrencesAppend(s[..i], [d], d);
      [s[..i]] + Split(s[i + 1..], d)
  }

  /** `implode(d, parts)`: the segments glued back together with `d`. */
  function Join(parts: seq<string>, d: char): (s: string)
  {
    if |parts| == 0 then ""
    else if |parts| == 1 then parts[0]
    else parts[0] + [d] + Join(parts[1..], d)
  }

  /** Gluing the segments back together gives the original string. */
  lemma {:induction false} JoinSplit(s: string, d: char)
    ensures Join(Split(s, d), d) == s
    decreases |s|
  {
    if d in s {
      var i := FirstIndex(s, d);
      var rest := Split(s[i + 1..], d);
      JoinSplit(s[i + 1..], d);
      assert Split(s, d) == [s[..i]] + rest;
      assert ([s[..i]] + rest)[0] == s[..i] && ([s[..i]] + rest)[1..] == rest;
      assert s == s[..i] + [d] + s[i + 1..];
    }
  }

  /** The first delimiter is the one with no delimiter before it. */
  lemma FirstIndexUnique(s: string, d: char, i: nat)
    requires i < |s| && s[i] == d && d !in s[..i]
    ensures FirstIndex(s, d) == i
  {
  }

  /** Splitting a join of delimiter-free segments recovers the segments. */
  lemma {:induction false} SplitJoin(parts: seq<string>, d: char)
    requires |parts| > 0
    requires forall i :: 0 <= i < |parts| ==> d !in parts[i]
    ensures Split(Join(parts, d), d) == parts
    decreases |parts|
  {
    if |parts| > 1 {
      var first := parts[0];
      var tail := Join(parts[1..], d);
      SplitJoin(parts[1..], d);
      var s := first + [d] + tail;
      var i := |first|;
      assert s[i] == d && s[..i] == first && s[i + 1..] == tail;
      FirstIndexUnique(s, d, i);
      assert Split(s, d) == [first] + Split(tail, d);
      assert [first] + parts[1..] == parts;
    }
  }
}
