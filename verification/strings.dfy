/** Sequence and string helpers shared by the translator and the session. */
module Strings {

  /** Total number of characters in all strings of `ss`. */
  function SumLengths(ss: seq<string>): nat
  {
    if ss == [] then 0 else |ss[0]| + SumLengths(ss[1..])
  }

  /** The concatenation, over `ss` in order, of each element followed by `terminator`. */
  function Terminated(ss: seq<string>, terminator: string): string
  {
    if ss == [] then "" else ss[0] + terminator + Terminated(ss[1..], terminator)
  }

  /** `s` read back to front. */
  function Reverse<T>(s: seq<T>): seq<T>
  {
    if s == [] then [] else [s[|s| - 1]] + Reverse(s[..|s| - 1])
  }

  /** Position of the first `c` in `s`, or `|s|` when there is none. */
  function IndexOf(s: string, c: char): (k: nat)
    ensures k <= |s|
    ensures forall i :: 0 <= i < k ==> s[i] != c
    ensures k < |s| ==> s[k] == c
  {
    if s == [] then 0
    else if s[0] == c then 0
    else 1 + IndexOf(s[1..], c)
  }

  lemma {:induction false} SumLengthsAppend(a: seq<string>, b: seq<string>)
    ensures SumLengths(a + b) == SumLengths(a) + SumLengths(b)
  {
    if a == [] {
      assert a + b == b;
    } else {
      assert (a + b)[1..] == a[1..] + b;
      SumLengthsAppend(a[1..], b);
    }
  }

  lemma {:induction false} ReverseLength<T>(s: seq<T>)
    ensures |Reverse(s)| == |s|
  {
    if s != [] {
      ReverseLength(s[..|s| - 1]);
    }
  }

  /** Element `i` of the reversal is element `|s| - 1 - i` of the original. */
  lemma {:induction false} ReverseIndex<T>(s: seq<T>, i: int)
    requires 0 <= i < |s|
    ensures |Reverse(s)| == |s|
    ensures Reverse(s)[i] == s[|s| - 1 - i]
  {
    ReverseLength(s);
    if i > 0 {
      ReverseIndex(s[..|s| - 1], i - 1);
    }
  }

  /** Reversing does not change the total length. */
  lemma {:induction false} SumLengthsReverse(ss: seq<string>)
    ensures SumLengths(Reverse(ss)) == SumLengths(ss)
  {
    if ss != [] {
      var init, last := ss[..|ss| - 1], ss[|ss| - 1];
      SumLengthsReverse(init);
      assert ss == init + [last];
      SumLengthsAppend(init, [last]);
      assert Reverse(ss) == [last] + Reverse(init);
      assert ([last] + Reverse(init))[1..] == Reverse(init);
    }
  }

  /** Each element contributes its own length plus one terminator. */
  lemma {:induction false} TerminatedLength(ss: seq<string>, terminator: string)
    ensures |Terminated(ss, terminator)| == SumLengths(ss) + |ss| * |terminator|
  {
    if ss != [] {
      TerminatedLength(ss[1..], terminator);
      assert |ss| * |terminator| == (|ss| - 1) * |terminator| + |terminator|;
    }
  }

  /** Terminating distributes over concatenation of the element lists. */
  lemma {:induction false} TerminatedAppend(a: seq<string>, b: seq<string>, terminator: string)
    ensures Terminated(a + b, terminator) == Terminated(a, terminator) + Terminated(b, terminator)
  {
    if a == [] {
      assert a + b == b;
    } else {
      assert (a + b)[1..] == a[1..] + b;
      TerminatedAppend(a[1..], b, terminator);
    }
  }
}
