/** The key orders the sort dispatcher uses: StringComparer.OrdinalIgnoreCase
    on nullable strings, the default order of nullable integers (null first),
    and the default order of booleans (false before true). */
module Ordering {
  import opened Common

  /** The upper-case form of one character, as the ordinal ignore-case
      comparison folds it (only the letters a to z are mapped here). */
  function ToUpper(c: char): char
  {
    if 'a' <= c <= 'z' then (c as int - 32) as char else c
  }

  /** A string with every character folded to upper case. */
  function Folded(s: string): (r: string)
    ensures |r| == |s| && forall i :: 0 <= i < |s| ==> r[i] == ToUpper(s[i])
  {
    if s == [] then [] else [ToUpper(s[0])] + Folded(s[1..])
  }

  /** OrdinalIgnoreCase.Compare(a, b) <= 0 for non-null strings: the first
      position where the folded characters differ decides, and a proper
      prefix comes first. */
  predicate FoldedLeq(a: string, b: string)
    decreases |a|
  {
    if a == [] then true
    else if b == [] then false
    else if ToUpper(a[0]) != ToUpper(b[0]) then ToUpper(a[0]) < ToUpper(b[0])
    else FoldedLeq(a[1..], b[1..])
  }

  /** Any two strings are comparable. */
  lemma {:induction false} FoldedLeqTotal(a: string, b: string)
    ensures FoldedLeq(a, b) || FoldedLeq(b, a)
    decreases |a|
  {
    if a != [] && b != [] && ToUpper(a[0]) == ToUpper(b[0]) {
      FoldedLeqTotal(a[1..], b[1..]);
    }
  }

  /** The order is transitive. */
  lemma {:induction false} FoldedLeqTransitive(a: string, b: string, c: string)
    requires FoldedLeq(a, b) && FoldedLeq(b, c)
    ensures FoldedLeq(a, c)
    decreases |a|
  {
    if a != [] && b != [] && c != []
      && ToUpper(a[0]) == ToUpper(b[0]) && ToUpper(b[0]) == ToUpper(c[0]) {
      FoldedLeqTransitive(a[1..], b[1..], c[1..]);
    }
  }

  /** Two strings tie under the comparison exactly when they agree ignoring case. */
  lemma {:induction false} FoldedTieIffSameFolding(a: string, b: string)
    ensures FoldedLeq(a, b) && FoldedLeq(b, a) <==> Folded(a) == Folded(b)
    decreases |a|
  {
    if a != [] && b != [] {
      FoldedTieIffSameFolding(a[1..], b[1..]);
      assert Folded(a) == [ToUpper(a[0])] + Folded(a[1..]);
      assert Folded(b) == [ToUpper(b[0])] + Folded(b[1..]);
      if Folded(a) == Folded(b) {
        assert Folded(a)[1..] == Folded(a[1..]);
        assert Folded(b)[1..] == Folded(b[1..]);
      }
    }
  }

  /** OrdinalIgnoreCase.Compare(a, b) <= 0 on nullable strings: null comes before every string. */
  predicate TextLeq(a: Option<string>, b: Option<string>)
  {
    a.None? || (b.Some? && FoldedLeq(a.value, b.value))
  }

  lemma TextLeqTotal(a: Option<string>, b: Option<string>)
    ensures TextLeq(a, b) || TextLeq(b, a)
  {
    if a.Some? && b.Some? {
      FoldedLeqTotal(a.value, b.value);
    }
  }

  lemma TextLeqTransitive(a: Option<string>, b: Option<string>, c: Option<string>)
    requires TextLeq(a, b) && TextLeq(b, c)
    ensures TextLeq(a, c)
  {
    if a.Some? {
      FoldedLeqTransitive(a.value, b.value, c.value);
    }
  }

  /** Comparer<int?>.Default: null first, then by value. */
  predicate NullFirstLeq(a: Option<int>, b: Option<int>)
  {
    a.None? || (b.Some? && a.value <= b.value)
  }

  /** Comparer<bool>.Default: false before true. */
  predicate BoolLeq(a: bool, b: bool)
  {
    !a || b
  }
}
