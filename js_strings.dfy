/**
 * The pieces of JavaScript string semantics the pipeline relies on:
 * `indexOf`, `split` and `join` with a string separator, and the
 * conversion of `undefined` to text.
 *
 * A JavaScript string is a sequence of UTF-16 code units; here a string is
 * a `seq<char>`, and a char is a Unicode scalar value. The two agree on
 * text from the Basic Multilingual Plane, which is what this model covers:
 * a character outside it is two code units in JavaScript but one char here.
 */
module JsStrings {
  import opened Wrappers

  /** `String(x)` for a value that is either a string or `undefined`. */
  function ToText(s: Option<string>): string {
    match s
    case Some(v) => v
    case None => "undefined"
  }

  /** `pat` occurs in `s` at position `i`. */
  predicate OccursAt(s: string, pat: string, i: nat) {
    i + |pat| <= |s| && s[i..i + |pat|] == pat
  }

  /** `pat` occurs nowhere in `s`. */
  predicate Free(s: string, pat: string) {
    forall i: nat :: i <= |s| ==> !OccursAt(s, pat, i)
  }

  lemma OccursAtTail(s: string, pat: string, i: nat)
    requires |s| > 0
    ensures OccursAt(s, pat, i + 1) <==> OccursAt(s[1..], pat, i)
  {
    if i + 1 + |pat| <= |s| {
      assert s[1..][i..i + |pat|] == s[i + 1..i + 1 + |pat|];
    }
  }

  /** `s.indexOf(pat)`: the first position at which `pat` occurs, or None for -1. */
  function IndexOf(s: string, pat: string): (r: Option<nat>)
    ensures r.Some? ==> r.value + |pat| <= |s|
    decreases |s|
  {
    if |s| < |pat| then None
    else if s[..|pat|] == pat then Some(0)
    else
      match IndexOf(s[1..], pat)
      case None => None
      case Some(k) => Some(k + 1)
  }

  /** `indexOf` finds the first occurrence, and finds none exactly when there is none. */
  lemma {:induction false} IndexOfSpec(s: string, pat: string)
    ensures IndexOf(s, pat).Some? ==> OccursAt(s, pat, IndexOf(s, pat).value)
    ensures IndexOf(s, pat).Some? ==> forall j: nat :: j < IndexOf(s, pat).value ==> !OccursAt(s, pat, j)
    ensures IndexOf(s, pat).None? <==> Free(s, pat)
    decreases |s|
  {
    if |s| < |pat| {
    } else if s[..|pat|] == pat {
      assert OccursAt(s, pat, 0);
    } else {
      IndexOfSpec(s[1..], pat);
      assert !OccursAt(s, pat, 0);
      forall j: nat ensures OccursAt(s, pat, j + 1) <==> OccursAt(s[1..], pat, j) {
        OccursAtTail(s, pat, j);
      }
      if Free(s[1..], pat) {
        forall i: nat | i <= |s| ensures !OccursAt(s, pat, i) {
          if i > 0 { assert !OccursAt(s[1..], pat, i - 1); }
        }
      }
      if Free(s, pat) {
        forall i: nat | i <= |s[1..]| ensures !OccursAt(s[1..], pat, i) {
          assert !OccursAt(s, pat, i + 1);
        }
      }
      match IndexOf(s[1..], pat)
      case None =>
      case Some(k) =>
        forall j: nat | j < k + 1 ensures !OccursAt(s, pat, j) {
          if j > 0 { assert !OccursAt(s[1..], pat, j - 1); }
        }
    }
  }

  /** An occurrence with none before it is the one `indexOf` finds. */
  lemma IndexOfIs(s: string, pat: string, i: nat)
    requires OccursAt(s, pat, i)
    requires forall j: nat :: j < i ==> !OccursAt(s, pat, j)
    ensures IndexOf(s, pat) == Some(i)
  {
    IndexOfSpec(s, pat);
  }

  /** The pieces of `s.split("")`: one string per code unit. */
  function Chars(s: string): seq<string> {
    seq(|s|, i requires 0 <= i < |s| => [s[i]])
  }

  /**
   * `s.split(sep)` with no limit: with a non-empty separator, the pieces
   * between successive leftmost non-overlapping occurrences; with the empty
   * separator, one piece per code unit.
   */
  function Split(s: string, sep: string): (parts: seq<string>)
    ensures sep != [] ==> |parts| >= 1
    ensures sep != [] && IndexOf(s, sep).Some? ==> |parts| >= 2
    ensures sep != [] && IndexOf(s, sep).None? ==> parts == [s]
    decreases |s|
  {
    if sep == [] then Chars(s)
    else
      match IndexOf(s, sep)
      case None => [s]
      case Some(i) => [s[..i]] + Split(s[i + |sep|..], sep)
  }

  /** `parts.join(sep)`. */
  function Join(parts: seq<string>, sep: string): string {
    if |parts| == 0 then ""
    else if |parts| == 1 then parts[0]
    else parts[0] + sep + Join(parts[1..], sep)
  }

  lemma SplitAt(s: string, sep: string, i: nat)
    requires sep != [] && IndexOf(s, sep) == Some(i)
    ensures Split(s, sep) == [s[..i]] + Split(s[i + |sep|..], sep)
  {
  }

  lemma JoinCons(head: string, rest: seq<string>, sep: string)
    requires |rest| >= 1
    ensures Join([head] + rest, sep) == head + sep + Join(rest, sep)
  {
    assert ([head] + rest)[1..] == rest;
  }

  /** A string is the text before an occurrence, the occurrence, and the text after it. */
  lemma AroundOccurrence(s: string, sep: string, i: nat)
    requires OccursAt(s, sep, i)
    ensures s == s[..i] + sep + s[i + |sep|..]
  {
    assert s == s[..i] + s[i..i + |sep|] + s[i + |sep|..];
  }

  lemma JoinSplitStep(s: string, sep: string, i: nat, rest: seq<string>)
    requires OccursAt(s, sep, i) && |rest| >= 1 && Join(rest, sep) == s[i + |sep|..]
    ensures Join([s[..i]] + rest, sep) == s
  {
    JoinCons(s[..i], rest, sep);
    AroundOccurrence(s, sep, i);
  }

  /** Joining the pieces of a split with the same separator gives the string back. */
  lemma {:induction false} JoinSplit(s: string, sep: string)
    ensures Join(Split(s, sep), sep) == s
    decreases |s|
  {
    if sep == [] {
      JoinChars(s);
    } else {
      var r := IndexOf(s, sep);
      if r.Some? {
        IndexOfSpec(s, sep);
        var i := r.value;
        var tail := s[i + |sep|..];
        JoinSplit(tail, sep);
        SplitAt(s, sep, i);
        JoinSplitStep(s, sep, i, Split(tail, sep));
      }
    }
  }

  lemma {:induction false} JoinChars(s: string)
    ensures Join(Chars(s), "") == s
  {
    var parts := Chars(s);
    if |s| > 1 {
      JoinChars(s[1..]);
      assert parts[1..] == Chars(s[1..]);
      assert s == [s[0]] + s[1..];
    }
  }

  /** The text before the first occurrence holds no occurrence. */
  lemma BeforeFirstIsFree(s: string, sep: string, i: nat)
    requires sep != [] && IndexOf(s, sep) == Some(i)
    ensures Free(s[..i], sep)
  {
    IndexOfSpec(s, sep);
    var head := s[..i];
    forall j: nat | j <= |head| ensures !OccursAt(head, sep, j) {
      if OccursAt(head, sep, j) {
        assert head[j..j + |sep|] == s[j..j + |sep|];
        assert OccursAt(s, sep, j);
      }
    }
  }

  /** With a non-empty separator, no piece of a split contains the separator. */
  lemma {:induction false} SplitPiecesAreFree(s: string, sep: string)
    requires sep != []
    ensures forall k :: 0 <= k < |Split(s, sep)| ==> Free(Split(s, sep)[k], sep)
    decreases |s|
  {
    var parts := Split(s, sep);
    match IndexOf(s, sep)
    case None =>
      IndexOfSpec(s, sep);
    case Some(i) =>
      var tail := s[i + |sep|..];
      SplitPiecesAreFree(tail, sep);
      BeforeFirstIsFree(s, sep, i);
      SplitAt(s, sep, i);
      var rest := Split(tail, sep);
      forall k | 0 <= k < |parts| ensures Free(parts[k], sep) {
        if k > 0 { assert parts[k] == rest[k - 1]; }
      }
  }

  /** A string that starts with `sep` twice and has no further occurrence splits into two empty pieces and the rest. */
  lemma SplitTwiceLeading(sep: string, rest: string)
    requires sep != [] && Free(rest, sep)
    ensures Split(sep + sep + rest, sep) == ["", "", rest]
  {
    var s := sep + (sep + rest);
    assert sep + sep + rest == s;
    assert s[0..|sep|] == sep;
    IndexOfIs(s, sep, 0);
    SplitAt(s, sep, 0);
    assert s[..0] == "";
    assert s[|sep|..] == sep + rest;
    SplitLeading(sep, rest);
  }

  /** A string that starts with `sep` and has no further occurrence splits into the empty prefix and the rest. */
  lemma SplitLeading(sep: string, rest: string)
    requires sep != [] && Free(rest, sep)
    ensures Split(sep + rest, sep) == ["", rest]
  {
    var s := sep + rest;
    IndexOfSpec(rest, sep);
    assert s[..|sep|] == sep;
    assert IndexOf(s, sep) == Some(0);
    assert s[|sep|..] == rest;
  }
}
