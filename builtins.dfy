/**
 * The Python built-ins the charm applies to the certificate bundle: `str.split(sep)` with a
 * non-empty separator, its inverse `sep.join(parts)`, and `list(reversed(xs))`.
 *
 * `str.split` scans left to right and cuts at each occurrence of the separator that does not
 * overlap the previous cut; the piece after the last cut is always kept, so the result is never
 * empty and `"".split(sep) == [""]`.
 */
module Builtins {
  import opened Wrappers

  /** `sep` occurs in `s` starting at index `i`. */
  predicate OccursAt(s: string, sep: string, i: int) {
    0 <= i && i + |sep| <= |s| && s[i..i + |sep|] == sep
  }

  predicate NoOccurrence(s: string, sep: string) {
    forall i :: 0 <= i <= |s| ==> !OccursAt(s, sep, i)
  }

  /**
   * Appending `sep` to `p` creates no occurrence of `sep` earlier than the appended one
   * (with `"\n\n"`: `p` has no blank line and does not end with a newline).
   */
  predicate EndsCleanly(p: string, sep: string) {
    forall j :: 0 <= j < |p| ==> !OccursAt(p + sep, sep, j)
  }

  /** The shape of every result of `Split`: one piece at least, and only the cuts between pieces. */
  predicate Splittable(parts: seq<string>, sep: string) {
    && |parts| >= 1
    && (forall k :: 0 <= k < |parts| - 1 ==> EndsCleanly(parts[k], sep))
    && NoOccurrence(parts[|parts| - 1], sep)
  }

  /** `s.find(sep, start)`: the first occurrence at or after `start`. */
  function FindFrom(s: string, sep: string, start: nat): (r: Option<nat>)
    ensures r.Some? ==> start <= r.value && r.value + |sep| <= |s|
    decreases |s| - start
  {
    if start + |sep| > |s| then None
    else if s[start..start + |sep|] == sep then Some(start)
    else FindFrom(s, sep, start + 1)
  }

  /** `FindFrom` finds an occurrence with none before it, and finds nothing only when there is none. */
  lemma {:induction false} FindFromFirst(s: string, sep: string, start: nat)
    ensures FindFrom(s, sep, start).Some? ==> OccursAt(s, sep, FindFrom(s, sep, start).value)
    ensures FindFrom(s, sep, start).Some? ==>
      forall j :: start <= j < FindFrom(s, sep, start).value ==> !OccursAt(s, sep, j)
    ensures FindFrom(s, sep, start).None? ==> forall j :: start <= j ==> !OccursAt(s, sep, j)
    decreases |s| - start
  {
    if start + |sep| <= |s| && s[start..start + |sep|] != sep {
      FindFromFirst(s, sep, start + 1);
    }
  }

  lemma OccursInPrefix(s: string, sep: string, n: nat, j: int)
    requires n <= |s| && j + |sep| <= n
    ensures OccursAt(s[..n], sep, j) <==> OccursAt(s, sep, j)
  {
    if 0 <= j {
      assert s[..n][j..j + |sep|] == s[j..j + |sep|];
    }
  }

  lemma EndsCleanlyHasNoOccurrence(p: string, sep: string)
    requires |sep| > 0 && EndsCleanly(p, sep)
    ensures NoOccurrence(p, sep)
  {
    forall j | OccursAt(p, sep, j) ensures false {
      OccursInPrefix(p + sep, sep, |p|, j);
    }
  }

  /** The piece before the first occurrence ends cleanly. */
  lemma FirstCutEndsCleanly(s: string, sep: string, i: nat)
    requires |sep| > 0 && FindFrom(s, sep, 0) == Some(i)
    ensures EndsCleanly(s[..i], sep) && NoOccurrence(s[..i], sep)
  {
    FindFromFirst(s, sep, 0);
    var head := s[..i];
    assert head + sep == s[..i + |sep|];
    forall j | 0 <= j < |head| ensures !OccursAt(head + sep, sep, j) {
      OccursInPrefix(s, sep, i + |sep|, j);
    }
    EndsCleanlyHasNoOccurrence(head, sep);
  }

  /** `s.split(sep)`. */
  function Split(s: string, sep: string): (r: seq<string>)
    requires |sep| > 0
    ensures |r| >= 1
    decreases |s|
  {
    match FindFrom(s, sep, 0)
    case None => [s]
    case Some(i) => [s[..i]] + Split(s[i + |sep|..], sep)
  }

  /**
   * The pieces of a split have the shape `Splittable` describes, none contains the separator,
   * and there is just one piece exactly when the text has no separator.
   */
  lemma {:induction false} SplitShape(s: string, sep: string)
    requires |sep| > 0
    ensures Splittable(Split(s, sep), sep)
    ensures forall k :: 0 <= k < |Split(s, sep)| ==> NoOccurrence(Split(s, sep)[k], sep)
    ensures |Split(s, sep)| == 1 <==> NoOccurrence(s, sep)
    decreases |s|
  {
    var f := FindFrom(s, sep, 0);
    FindFromFirst(s, sep, 0);
    if f.Some? {
      var i := f.value;
      var head, pieces := s[..i], Split(s[i + |sep|..], sep);
      SplitAt(s, sep, i);
      FirstCutEndsCleanly(s, sep, i);
      SplitShape(s[i + |sep|..], sep);
      ConsShape(head, pieces, sep);
    }
  }

  lemma ConsShape(head: string, pieces: seq<string>, sep: string)
    requires EndsCleanly(head, sep) && NoOccurrence(head, sep) && Splittable(pieces, sep)
    requires forall k :: 0 <= k < |pieces| ==> NoOccurrence(pieces[k], sep)
    ensures Splittable([head] + pieces, sep)
    ensures forall k :: 0 <= k < |[head] + pieces| ==> NoOccurrence(([head] + pieces)[k], sep)
  {
    var r := [head] + pieces;
    assert forall k :: 1 <= k < |r| ==> r[k] == pieces[k - 1];
  }

  /** `sep.join(parts)`. */
  function Join(parts: seq<string>, sep: string): string {
    if |parts| == 0 then ""
    else if |parts| == 1 then parts[0]
    else parts[0] + sep + Join(parts[1..], sep)
  }

  lemma JoinCons(head: string, tail: seq<string>, sep: string)
    requires |tail| >= 1
    ensures Join([head] + tail, sep) == head + sep + Join(tail, sep)
  {
  }

  /** Joining the pieces of a split gives back the text. */
  lemma {:induction false} JoinSplit(s: string, sep: string)
    requires |sep| > 0
    ensures Join(Split(s, sep), sep) == s
    decreases |s|
  {
    var f := FindFrom(s, sep, 0);
    FindFromFirst(s, sep, 0);
    if f.Some? {
      var i := f.value;
      var head, rest := s[..i], s[i + |sep|..];
      JoinSplit(rest, sep);
      SplitAt(s, sep, i);
      JoinCons(head, Split(rest, sep), sep);
      Reassemble(s, i, |sep|);
    }
  }

  lemma SplitAt(s: string, sep: string, i: nat)
    requires |sep| > 0 && FindFrom(s, sep, 0) == Some(i)
    ensures Split(s, sep) == [s[..i]] + Split(s[i + |sep|..], sep)
  {
  }

  lemma Reassemble(s: string, i: nat, n: nat)
    requires i + n <= |s|
    ensures s == s[..i] + s[i..i + n] + s[i + n..]
  {
  }

  /** After a piece that ends cleanly, the first occurrence is the separator that follows it. */
  lemma FirstOccurrenceAfterCleanPiece(p: string, t: string, sep: string)
    requires |sep| > 0 && EndsCleanly(p, sep)
    ensures FindFrom(p + sep + t, sep, 0) == Some(|p|)
  {
    var s := p + sep + t;
    assert s[|p|..|p| + |sep|] == sep;
    assert OccursAt(s, sep, |p|);
    var f := FindFrom(s, sep, 0);
    FindFromFirst(s, sep, 0);
    assert f.Some? && f.value <= |p|;
    if f.value < |p| {
      assert p + sep == s[..|p| + |sep|];
      OccursInPrefix(s, sep, |p| + |sep|, f.value);
    }
  }

  lemma SplittableTail(parts: seq<string>, sep: string)
    requires |parts| >= 2 && Splittable(parts, sep)
    ensures Splittable(parts[1..], sep)
  {
    assert forall k :: 0 <= k < |parts| - 2 ==> parts[1..][k] == parts[k + 1];
  }

  /** Splitting a join gives back the parts, whenever they have the shape `Split` produces. */
  lemma {:induction false} SplitJoin(parts: seq<string>, sep: string)
    requires |sep| > 0 && Splittable(parts, sep)
    ensures Split(Join(parts, sep), sep) == parts
  {
    if |parts| == 1 {
      FindFromFirst(parts[0], sep, 0);
    } else {
      var p, rest := parts[0], parts[1..];
      var t := Join(rest, sep);
      var s := p + sep + t;
      assert Join(parts, sep) == s;
      FirstOccurrenceAfterCleanPiece(p, t, sep);
      SplitAt(s, sep, |p|);
      assert s[..|p|] == p && s[|p| + |sep|..] == t;
      SplittableTail(parts, sep);
      SplitJoin(rest, sep);
      assert [p] + rest == parts;
    }
  }

  /** With a blank line as separator, ending cleanly means: no blank line and no final newline. */
  lemma BlankLineEndsCleanly(p: string)
    ensures EndsCleanly(p, "\n\n") <==> NoOccurrence(p, "\n\n") && (p == [] || p[|p| - 1] != '\n')
  {
    var sep := "\n\n";
    if EndsCleanly(p, sep) {
      EndsCleanlyHasNoOccurrence(p, sep);
      if p != [] && p[|p| - 1] == '\n' {
        assert (p + sep)[|p| - 1..|p| + 1] == sep;
        assert OccursAt(p + sep, sep, |p| - 1);
      }
    } else if NoOccurrence(p, sep) && (p == [] || p[|p| - 1] != '\n') {
      forall j | 0 <= j < |p| ensures !OccursAt(p + sep, sep, j) {
        if j + 2 <= |p| {
          OccursInPrefix(p + sep, sep, |p|, j);
        } else {
          assert (p + sep)[j] == p[j];
        }
      }
    }
  }

  /** `list(reversed(xs))`. */
  function Reversed<T>(xs: seq<T>): (r: seq<T>)
    ensures |r| == |xs|
    ensures forall i :: 0 <= i < |xs| ==> r[i] == xs[|xs| - 1 - i]
  {
    if xs == [] then [] else [xs[|xs| - 1]] + Reversed(xs[..|xs| - 1])
  }

  lemma ReversedTwice<T>(xs: seq<T>)
    ensures Reversed(Reversed(xs)) == xs
  {
  }
}
