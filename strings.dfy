/** `str::split` on a single character, which `ImageSize::from_str` steps
    through, with its inverse `Join` as the reference it is checked against. */
module Strings {

  /** Position of the first `c` in `s`, or `|s|` when there is none. */
  function IndexOf(s: string, c: char): (i: nat)
    ensures i <= |s|
    ensures c !in s[..i]
    ensures i < |s| ==> s[i] == c
  {
    if s == [] then 0
    else if s[0] == c then 0
    else
      assert s[1..][..IndexOf(s[1..], c)] == s[1..1 + IndexOf(s[1..], c)];
      1 + IndexOf(s[1..], c)
  }

  /** The pieces separated by `c`, joined back with `c`. */
  function Join(pieces: seq<string>, c: char): string
    requires |pieces| >= 1
  {
    if |pieces| == 1 then pieces[0] else pieces[0] + [c] + Join(pieces[1..], c)
  }

  /** `s.split(c).collect()`: the maximal runs of `s` free of `c`, in order,
      including the empty runs before, between and after occurrences of `c`. */
  function Split(s: string, c: char): (pieces: seq<string>)
    ensures |pieces| >= 1
    decreases |s|
  {
    var i := IndexOf(s, c);
    if i == |s| then [s] else [s[..i]] + Split(s[i + 1..], c)
  }

  /** The pieces are free of `c`, and joining them with `c` gives back `s`. */
  lemma {:induction false} JoinSplit(s: string, c: char)
    ensures forall k :: 0 <= k < |Split(s, c)| ==> c !in Split(s, c)[k]
    ensures Join(Split(s, c), c) == s
    decreases |s|
  {
    var i := IndexOf(s, c);
    if i == |s| {
      assert s[..i] == s;
    } else {
      JoinSplit(s[i + 1..], c);
      assert s == s[..i] + [c] + s[i + 1..];
      assert Split(s, c)[1..] == Split(s[i + 1..], c);
    }
  }

  /** Splitting undoes joining pieces that are free of the separator. */
  lemma {:induction false} SplitJoin(pieces: seq<string>, c: char)
    requires |pieces| >= 1
    requires forall k :: 0 <= k < |pieces| ==> c !in pieces[k]
    ensures Split(Join(pieces, c), c) == pieces
    decreases |pieces|
  {
    var s := Join(pieces, c);
    if |pieces| == 1 {
      assert IndexOf(s, c) == |s|;
    } else {
      var head := pieces[0];
      var tail := Join(pieces[1..], c);
      assert s == head + [c] + tail;
      IndexOfAfterFreePrefix(head, tail, c);
      assert s[..|head|] == head;
      assert s[|head| + 1..] == tail;
      SplitJoin(pieces[1..], c);
      assert Split(s, c) == [head] + Split(tail, c);
      assert pieces == [head] + pieces[1..];
    }
  }

  lemma {:induction false} IndexOfAfterFreePrefix(head: string, tail: string, c: char)
    requires c !in head
    ensures IndexOf(head + [c] + tail, c) == |head|
  {
    if head != [] {
      assert (head + [c] + tail)[1..] == head[1..] + [c] + tail;
      IndexOfAfterFreePrefix(head[1..], tail, c);
    }
  }

  /** `IndexOf` is the one position before which `c` does not occur and at
      which it does (or the end). */
  lemma IndexOfIs(s: string, c: char, i: nat)
    requires i <= |s| && c !in s[..i]
    requires i < |s| ==> s[i] == c
    ensures IndexOf(s, c) == i
  {
    var r := IndexOf(s, c);
    assert forall k :: 0 <= k < i ==> s[..i][k] == s[k];
    assert forall k :: 0 <= k < r ==> s[..r][k] == s[k];
  }
}
