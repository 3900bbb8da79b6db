/** The parts of java.util the core relies on: a TreeSet<String>, represented by the
    sequence its iterator yields (strictly ascending in String.compareTo order), and
    Collectors.joining. */
module JavaUtil {
  import opened JavaLang

  /** The iteration order of a TreeSet<String>: ascending, no element twice. */
  predicate StrictlyAscending(xs: seq<string>) {
    forall i, j :: 0 <= i < j < |xs| ==> Less(xs[i], xs[j])
  }

  /** Putting an element below every element of an ascending sequence keeps it ascending. */
  lemma PrependAscending(x: string, xs: seq<string>)
    requires StrictlyAscending(xs)
    requires xs != [] ==> Less(x, xs[0])
    ensures StrictlyAscending([x] + xs)
  {
    var ys := [x] + xs;
    forall i, j | 0 <= i < j < |ys|
      ensures Less(ys[i], ys[j])
    {
      if i == 0 && j > 1 {
        LessTransitive(x, xs[0], xs[j - 1]);
      }
    }
  }

  /** TreeSet.add: the element is placed at its position in the order; an element that is
      already present is not added twice. */
  function Insert(xs: seq<string>, x: string): (r: seq<string>)
    requires StrictlyAscending(xs)
    ensures StrictlyAscending(r)
    ensures forall y :: y in r <==> y in xs || y == x
  {
    if xs == [] then [x]
    else if x == xs[0] then xs
    else if Less(x, xs[0]) then
      PrependAscending(x, xs);
      [x] + xs
    else
      LessTotal(x, xs[0]);
      var tail := Insert(xs[1..], x);
      assert forall y :: y in xs <==> y == xs[0] || y in xs[1..] by {
        assert xs == [xs[0]] + xs[1..];
      }
      PrependAscending(xs[0], tail);
      [xs[0]] + tail
  }

  /** Sets.newTreeSet(elements): a fresh TreeSet holding exactly the given elements,
      filled by adding them one at a time. */
  method NewTreeSet(elements: set<string>) returns (tree: seq<string>)
    ensures StrictlyAscending(tree)
    ensures forall y :: y in tree <==> y in elements
  {
    tree := [];
    var rest := elements;
    while rest != {}
      invariant rest <= elements
      invariant StrictlyAscending(tree)
      invariant forall y :: y in tree <==> y in elements && y !in rest
      decreases rest
    {
      var x :| x in rest;
      tree := Insert(tree, x);
      rest := rest - {x};
    }
  }

  /** Two TreeSets with the same elements iterate in the same order: the ascending sequence
      of a set of strings is unique. */
  lemma {:induction false} AscendingUnique(a: seq<string>, b: seq<string>)
    requires StrictlyAscending(a) && StrictlyAscending(b)
    requires forall y :: y in a <==> y in b
    ensures a == b
    decreases |a|
  {
    assert a != [] ==> a[0] in b;
    assert b != [] ==> b[0] in a;
    if a != [] && b != [] {
      if a[0] != b[0] {
        assert b[0] in b && a[0] in a;
        var i :| 0 <= i < |a| && a[i] == b[0];
        var j :| 0 <= j < |b| && b[j] == a[0];
        assert i > 0 && j > 0;
        LessAsymmetric(a[0], a[i]);
      }
      assert a == [a[0]] + a[1..] && b == [b[0]] + b[1..];
      forall y
        ensures y in a[1..] <==> y in b[1..]
      {
        if y in a[1..] {
          var k :| 1 <= k < |a| && a[k] == y;
          assert Less(a[0], a[k]);
          if y == a[0] { LessIrreflexive(y); }
          assert y in b;
          var m :| 0 <= m < |b| && b[m] == y;
          assert b[1..][m - 1] == y;
        }
        if y in b[1..] {
          var k :| 1 <= k < |b| && b[k] == y;
          assert Less(b[0], b[k]);
          if y == b[0] { LessIrreflexive(y); }
          assert y in a;
          var m :| 0 <= m < |a| && a[m] == y;
          assert a[1..][m - 1] == y;
        }
      }
      AscendingUnique(a[1..], b[1..]);
    }
  }

  /** AbstractSet.hashCode: the sum of the elements' hash codes in `int` arithmetic. */
  function SetHashCode(xs: seq<string>): (h: int)
    ensures IsInt(h)
  {
    if xs == [] then 0 else Wrap(SetHashCode(xs[..|xs| - 1]) + StringHashCode(xs[|xs| - 1]))
  }

  /** Collectors.joining(sep): the strings in order with `sep` between neighbours. */
  function Join(xs: seq<string>, sep: string): (r: string)
    ensures |xs| == 1 ==> r == xs[0]
    ensures |xs| > 1 ==> r == xs[0] + sep + Join(xs[1..], sep)
  {
    if xs == [] then ""
    else if |xs| == 1 then xs[0]
    else xs[0] + sep + Join(xs[1..], sep)
  }

  /** Joining one more string appends the separator and that string. */
  lemma {:induction false} JoinAppend(xs: seq<string>, x: string, sep: string)
    requires xs != []
    ensures Join(xs + [x], sep) == Join(xs, sep) + sep + x
    decreases |xs|
  {
    if |xs| == 1 {
      assert (xs + [x])[1..] == [x];
    } else {
      assert (xs + [x])[1..] == xs[1..] + [x];
      JoinAppend(xs[1..], x, sep);
    }
  }
}
