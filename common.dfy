/** Vocabulary shared by the fact extractor, the error classifier and the
    fallback explainers: optional JSON fields, JavaScript truthiness of
    strings, the three-level scale, and the order-preserving list
    operations (filter-and-map, append-if-absent, first-occurrence
    deduplication) that the core builds its lists with. */
module Common {

  /** A JSON field that may be absent (`undefined` or `null`). */
  datatype Option<+T> = None | Some(value: T)

  /** A string field is truthy in JavaScript when it is present and not empty. */
  predicate Present(o: Option<string>) {
    o.Some? && o.value != ""
  }

  /** The JavaScript `field || fallback` for a string-valued field. */
  function OrElse(o: Option<string>, fallback: string): string {
    if Present(o) then o.value else fallback
  }

  /** The JavaScript `field || []` for a list-valued field (an array is always truthy). */
  function ListOr<T>(o: Option<seq<T>>): seq<T> {
    match o
    case Some(s) => s
    case None => []
  }

  /** The scale used for risk and for confidence. */
  datatype Level = Low | Medium | High {
    function Name(): string {
      match this
      case Low => "low"
      case Medium => "medium"
      case High => "high"
    }
  }

  function Last<T>(s: seq<T>): T
    requires |s| > 0
  {
    s[|s| - 1]
  }

  function DropLast<T>(s: seq<T>): seq<T>
    requires |s| > 0
  {
    s[..|s| - 1]
  }

  function OptionToSeq<T>(o: Option<T>): seq<T> {
    match o
    case Some(x) => [x]
    case None => []
  }

  /** The loop `for (x of xs) { if (f(x) defined) out.push(f(x)) }`, folded
      from the back so that one more iteration is one more element at the end. */
  function FilterMap<A, B>(f: A -> Option<B>, xs: seq<A>): (r: seq<B>)
    ensures |r| <= |xs|
    decreases |xs|
  {
    if xs == [] then [] else FilterMap(f, DropLast(xs)) + OptionToSeq(f(Last(xs)))
  }

  /** One more loop iteration over `xs` is one more (optional) element at the end. */
  lemma FilterMapStep<A, B>(f: A -> Option<B>, xs: seq<A>, i: nat)
    requires i < |xs|
    ensures FilterMap(f, xs[..i + 1]) == FilterMap(f, xs[..i]) + OptionToSeq(f(xs[i]))
  {
    assert DropLast(xs[..i + 1]) == xs[..i];
  }

  /** An element is kept exactly when some input element maps to it. */
  lemma {:induction false} FilterMapMembers<A, B>(f: A -> Option<B>, xs: seq<A>, y: B)
    ensures y in FilterMap(f, xs) <==> exists k :: 0 <= k < |xs| && f(xs[k]) == Some(y)
    decreases |xs|
  {
    if xs != [] {
      var p := DropLast(xs);
      FilterMapMembers(f, p, y);
      assert forall k :: 0 <= k < |p| ==> xs[k] == p[k];
      if exists k :: 0 <= k < |xs| && f(xs[k]) == Some(y) {
        var k :| 0 <= k < |xs| && f(xs[k]) == Some(y);
        if k == |xs| - 1 {
          assert y in OptionToSeq(f(Last(xs)));
        } else {
          assert f(p[k]) == Some(y);
        }
      }
    }
  }

  /** Elements that map to nothing are skipped: the output is as long as the
      number of input elements that map to something. */
  lemma {:induction false} FilterMapAllDefined<A, B>(f: A -> Option<B>, xs: seq<A>)
    requires forall k :: 0 <= k < |xs| ==> f(xs[k]).Some?
    ensures |FilterMap(f, xs)| == |xs|
    ensures forall k :: 0 <= k < |xs| ==> Some(FilterMap(f, xs)[k]) == f(xs[k])
    decreases |xs|
  {
    if xs != [] {
      var p := DropLast(xs);
      assert forall k :: 0 <= k < |p| ==> xs[k] == p[k];
      FilterMapAllDefined(f, p);
    }
  }

  /** Running the loop over `xs` and then over `ys` pushes what running it
      over `xs + ys` pushes. */
  lemma {:induction false} FilterMapAppend<A, B>(f: A -> Option<B>, xs: seq<A>, ys: seq<A>)
    ensures FilterMap(f, xs + ys) == FilterMap(f, xs) + FilterMap(f, ys)
    decreases |ys|
  {
    if ys == [] {
      assert xs + ys == xs;
    } else {
      assert DropLast(xs + ys) == xs + DropLast(ys);
      assert Last(xs + ys) == Last(ys);
      FilterMapAppend(f, xs, DropLast(ys));
    }
  }

  /** The list pushed by the first `k` iterations is a prefix of the final one. */
  lemma FilterMapPrefix<A, B>(f: A -> Option<B>, xs: seq<A>, k: nat)
    requires k <= |xs|
    ensures FilterMap(f, xs[..k]) <= FilterMap(f, xs)
  {
    assert xs == xs[..k] + xs[k..];
    FilterMapAppend(f, xs[..k], xs[k..]);
  }

  /** The loop keeps discovery order even when it skips elements: of two
      elements that map to something, the earlier one's value is pushed at
      an earlier position. */
  lemma FilterMapKeepsOrder<A, B>(f: A -> Option<B>, xs: seq<A>, i: nat, j: nat)
    requires i < j < |xs| && f(xs[i]).Some? && f(xs[j]).Some?
    ensures exists p, q ::
      && 0 <= p < q < |FilterMap(f, xs)|
      && FilterMap(f, xs)[p] == f(xs[i]).value
      && FilterMap(f, xs)[q] == f(xs[j]).value
  {
    var r := FilterMap(f, xs);
    var p := |FilterMap(f, xs[..i])|;
    var q := |FilterMap(f, xs[..j])|;
    FilterMapStep(f, xs, i);
    FilterMapStep(f, xs, j);
    FilterMapPrefix(f, xs, i + 1);
    FilterMapPrefix(f, xs, j + 1);
    assert xs[..j][..i + 1] == xs[..i + 1];
    FilterMapPrefix(f, xs[..j], i + 1);
    assert r[p] == FilterMap(f, xs[..i + 1])[p] == f(xs[i]).value;
    assert r[q] == FilterMap(f, xs[..j + 1])[q] == f(xs[j]).value;
  }

  /** When each element maps under exactly one of `f` and `g`, the two
      outputs split the input: together they are exactly as long. */
  lemma {:induction false} FilterMapPartition<A, B>(f: A -> Option<B>, g: A -> Option<B>, xs: seq<A>)
    requires forall k :: 0 <= k < |xs| ==> f(xs[k]).Some? != g(xs[k]).Some?
    ensures |FilterMap(f, xs)| + |FilterMap(g, xs)| == |xs|
    decreases |xs|
  {
    if xs != [] {
      var p := DropLast(xs);
      assert forall k :: 0 <= k < |p| ==> xs[k] == p[k];
      FilterMapPartition(f, g, p);
    }
  }

  /** The value `h` gives at the least position of `[i, n)` where it gives one:
      a left-to-right search that stops at the first hit. */
  function FirstFrom<T>(h: nat -> Option<T>, i: nat, n: nat): Option<T>
    decreases n - i
  {
    if i >= n then None
    else if h(i).Some? then h(i)
    else FirstFrom(h, i + 1, n)
  }

  /** The search finds nothing exactly when there is no hit at all. */
  lemma {:induction false} FirstFromNone<T>(h: nat -> Option<T>, i: nat, n: nat)
    ensures FirstFrom(h, i, n).None? <==> forall k :: i <= k < n ==> h(k).None?
    decreases n - i
  {
    if i < n && h(i).None? {
      FirstFromNone(h, i + 1, n);
    }
  }

  /** What the search finds is the hit at the least position. */
  lemma {:induction false} FirstFromLeftmost<T>(h: nat -> Option<T>, i: nat, n: nat)
    ensures FirstFrom(h, i, n).Some? ==>
      exists k :: i <= k < n && h(k) == FirstFrom(h, i, n) && forall k' :: i <= k' < k ==> h(k').None?
    decreases n - i
  {
    if i < n && h(i).None? && FirstFrom(h, i + 1, n).Some? {
      FirstFromLeftmost(h, i + 1, n);
      var k :| i + 1 <= k < n && h(k) == FirstFrom(h, i + 1, n) && forall k' :: i + 1 <= k' < k ==> h(k').None?;
      assert forall k' :: i <= k' < k ==> h(k').None?;
    }
  }

  predicate NoDuplicates<T(==)>(s: seq<T>) {
    forall i, j :: 0 <= i < j < |s| ==> s[i] != s[j]
  }

  /** The loop `for (x of xs) { if (!acc.includes(x)) acc.push(x) }`: the
      original `acc` is kept as a prefix and every element of `xs` ends up
      present. */
  function AppendNew<T(==,!new)>(acc: seq<T>, xs: seq<T>): (r: seq<T>)
    ensures |acc| <= |r| && r[..|acc|] == acc
    ensures forall x :: x in r <==> x in acc || x in xs
    decreases |xs|
  {
    if xs == [] then acc
    else
      var p := AppendNew(acc, DropLast(xs));
      assert forall x :: x in xs <==> x in DropLast(xs) || x == Last(xs);
      if Last(xs) in p then p else p + [Last(xs)]
  }

  /** One more candidate is appended exactly when it is not yet listed. */
  lemma AppendNewStep<T(!new)>(acc: seq<T>, xs: seq<T>, x: T)
    ensures AppendNew(acc, xs + [x]) == if x in AppendNew(acc, xs) then AppendNew(acc, xs) else AppendNew(acc, xs) + [x]
  {
    assert DropLast(xs + [x]) == xs;
  }

  /** Whatever `AppendNew` adds is new: an added element differs from every
      element before it, those of `acc` included. */
  lemma {:induction false} AppendNewAddsNoDuplicate<T(!new)>(acc: seq<T>, xs: seq<T>)
    ensures forall i, j :: 0 <= i < j < |AppendNew(acc, xs)| && |acc| <= j ==>
      AppendNew(acc, xs)[i] != AppendNew(acc, xs)[j]
    decreases |xs|
  {
    if xs != [] {
      var p := AppendNew(acc, DropLast(xs));
      AppendNewAddsNoDuplicate(acc, DropLast(xs));
      if Last(xs) in p {
        assert AppendNew(acc, xs) == p;
      } else {
        var r := p + [Last(xs)];
        assert AppendNew(acc, xs) == r;
        forall i, j | 0 <= i < j < |r| && |acc| <= j
          ensures r[i] != r[j]
        {
          assert r[i] == p[i];
          if j < |p| {
            assert r[j] == p[j];
          } else {
            assert p[i] in p;
          }
        }
      }
    }
  }

  /** With no duplicates in `acc`, `AppendNew` creates none. */
  lemma AppendNewKeepsNoDuplicates<T(!new)>(acc: seq<T>, xs: seq<T>)
    requires NoDuplicates(acc)
    ensures NoDuplicates(AppendNew(acc, xs))
  {
    var r := AppendNew(acc, xs);
    AppendNewAddsNoDuplicate(acc, xs);
    forall i, j | 0 <= i < j < |r|
      ensures r[i] != r[j]
    {
      if j < |acc| {
        assert r[i] == acc[i] && r[j] == acc[j];
      }
    }
  }

  /** `Array.from(new Set(xs))`: each distinct element once, at the place of
      its first occurrence. */
  function Dedup<T(==,!new)>(xs: seq<T>): (r: seq<T>)
    ensures forall x :: x in r <==> x in xs
  {
    AppendNew([], xs)
  }

  /** Position of the first occurrence of `x`. */
  function IndexOf<T(==)>(s: seq<T>, x: T): (k: nat)
    requires x in s
    ensures k < |s| && s[k] == x && x !in s[..k]
  {
    if s[0] == x then 0 else 1 + IndexOf(s[1..], x)
  }

  lemma {:induction false} IndexOfInPrefix<T>(s: seq<T>, n: nat, x: T)
    requires n <= |s| && x in s[..n]
    ensures IndexOf(s, x) == IndexOf(s[..n], x)
  {
    var k := IndexOf(s[..n], x);
    var m := IndexOf(s, x);
    assert s[..n][..k] == s[..k];
    assert s[k] == x;
  }

  /** `Dedup` has no duplicates and lists the distinct elements in the order
      of their first occurrences. */
  lemma {:induction false} DedupFirstOccurrenceOrder<T(!new)>(xs: seq<T>)
    ensures NoDuplicates(Dedup(xs))
    ensures forall i, j :: 0 <= i < j < |Dedup(xs)| ==> IndexOf(xs, Dedup(xs)[i]) < IndexOf(xs, Dedup(xs)[j])
    decreases |xs|
  {
    AppendNewKeepsNoDuplicates([], xs);
    if xs != [] {
      var p := DropLast(xs);
      var q := Dedup(p);
      var r := Dedup(xs);
      DedupFirstOccurrenceOrder(p);
      assert p == xs[..|xs| - 1];
      forall y | y in q
        ensures IndexOf(xs, y) == IndexOf(p, y) && IndexOf(xs, y) < |xs| - 1
      {
        IndexOfInPrefix(xs, |xs| - 1, y);
      }
      if Last(xs) !in q {
        assert Last(xs) !in p;
        assert IndexOf(xs, Last(xs)) == |xs| - 1;
        assert r == q + [Last(xs)];
      }
    }
  }
}
