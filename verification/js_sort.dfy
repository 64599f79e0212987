/** `Array.prototype.sort()` without a comparator, as ECMAScript defines it:
    `undefined` elements go last, the others are ordered by their string
    conversion, and the sort is stable. Also the fact that a permutation
    keeps a sequence free of duplicates. */
module JsSort {
  import opened Text
  import opened Json

  /** `x` may stand before `y` in the default order. */
  predicate TextLe(x: Value, y: Value) {
    !Lt(ToStr(y), ToStr(x))
  }

  predicate SortedByText(s: seq<Value>) {
    forall i | 0 <= i < |s| - 1 :: TextLe(s[i], s[i + 1])
  }

  /** Places `x` after every element of `t` whose string is not greater, so
      inserting the elements in their original order keeps equal ones in
      that order. */
  function Insert(x: Value, t: seq<Value>): (r: seq<Value>)
    ensures |r| == |t| + 1
    ensures r[0] == x || (|t| > 0 && r[0] == t[0])
    ensures SortedByText(t) ==> SortedByText(r)
  {
    if |t| == 0 then [x]
    else if Lt(ToStr(x), ToStr(t[0])) then
      LtAsymmetric(ToStr(x), ToStr(t[0]));
      [x] + t
    else
      var rest := Insert(x, t[1..]);
      assert t == [t[0]] + t[1..];
      assert SortedByText(t) ==> SortedByText(t[1..]) by {
        if SortedByText(t) {
          forall i | 0 <= i < |t[1..]| - 1
            ensures TextLe(t[1..][i], t[1..][i + 1])
          {
            assert TextLe(t[i + 1], t[i + 2]);
          }
        }
      }
      [t[0]] + rest
  }

  /** Insertion sort of elements none of which is `undefined`. */
  function SortDefined(xs: seq<Value>): (r: seq<Value>)
    ensures |r| == |xs|
    ensures SortedByText(r)
  {
    if |xs| == 0 then []
    else
      assert xs == xs[..|xs| - 1] + [xs[|xs| - 1]];
      Insert(xs[|xs| - 1], SortDefined(xs[..|xs| - 1]))
  }

  /** A non-empty sequence is its front followed by its last element. */
  lemma FrontAndLast(xs: seq<Value>)
    requires |xs| > 0
    ensures xs == xs[..|xs| - 1] + [xs[|xs| - 1]]
    ensures multiset(xs) == multiset(xs[..|xs| - 1]) + multiset{xs[|xs| - 1]}
  {
    assert xs == xs[..|xs| - 1] + [xs[|xs| - 1]];
  }

  lemma ConcatAssociates(a: seq<Value>, b: seq<Value>, c: seq<Value>)
    ensures a + (b + c) == (a + b) + c
  {
  }

  /** A non-empty sequence is its first element followed by the rest. */
  lemma HeadAndTail(xs: seq<Value>)
    requires |xs| > 0
    ensures xs == [xs[0]] + xs[1..]
    ensures multiset(xs) == multiset{xs[0]} + multiset(xs[1..])
  {
    assert xs == [xs[0]] + xs[1..];
  }

  /** Inserting adds exactly the one element. */
  lemma {:induction false} InsertPermutes(x: Value, t: seq<Value>)
    ensures multiset(Insert(x, t)) == multiset(t) + multiset{x}
  {
    if |t| > 0 && !Lt(ToStr(x), ToStr(t[0])) {
      assert Insert(x, t) == [t[0]] + Insert(x, t[1..]);
      InsertPermutes(x, t[1..]);
      HeadAndTail(t);
    }
  }

  /** Insertion sort is a permutation. */
  lemma {:induction false} SortDefinedPermutes(xs: seq<Value>)
    ensures multiset(SortDefined(xs)) == multiset(xs)
  {
    if |xs| > 0 {
      var front, last := xs[..|xs| - 1], xs[|xs| - 1];
      var sorted := SortDefined(front);
      assert SortDefined(xs) == Insert(last, sorted);
      SortDefinedPermutes(front);
      InsertPermutes(last, sorted);
      FrontAndLast(xs);
    }
  }

  /** The elements other than `undefined`, in their original order. */
  function DefinedOf(xs: seq<Value>): (d: seq<Value>)
    ensures |d| <= |xs|
    ensures forall i | 0 <= i < |d| :: !d[i].Undefined?
    ensures (forall i | 0 <= i < |xs| :: !xs[i].Undefined?) ==> d == xs
  {
    if |xs| == 0 then []
    else if xs[0].Undefined? then DefinedOf(xs[1..])
    else [xs[0]] + DefinedOf(xs[1..])
  }

  /** As many `undefined` as `xs` holds. */
  function UndefinedOf(xs: seq<Value>): (u: seq<Value>)
    ensures |u| == |xs| - |DefinedOf(xs)|
    ensures forall i | 0 <= i < |u| :: u[i].Undefined?
  {
    if |xs| == 0 then []
    else if xs[0].Undefined? then [Undefined] + UndefinedOf(xs[1..])
    else UndefinedOf(xs[1..])
  }

  /** Together the two parts hold exactly the elements of `xs`. */
  lemma {:induction false} PartsArePermutation(xs: seq<Value>)
    ensures multiset(DefinedOf(xs)) + multiset(UndefinedOf(xs)) == multiset(xs)
  {
    if |xs| > 0 {
      var rest := xs[1..];
      PartsArePermutation(rest);
      HeadAndTail(xs);
      if xs[0].Undefined? {
        assert multiset(UndefinedOf(xs)) == multiset{xs[0]} + multiset(UndefinedOf(rest));
      } else {
        assert multiset(DefinedOf(xs)) == multiset{xs[0]} + multiset(DefinedOf(rest));
      }
    }
  }

  /** Sorting elements none of which is `undefined` brings none in. */
  lemma SortDefinedKeepsDefined(xs: seq<Value>)
    requires forall i | 0 <= i < |xs| :: !xs[i].Undefined?
    ensures forall i | 0 <= i < |xs| :: !SortDefined(xs)[i].Undefined?
  {
    var sorted := SortDefined(xs);
    SortDefinedPermutes(xs);
    forall i | 0 <= i < |xs|
      ensures !sorted[i].Undefined?
    {
      assert sorted[i] in multiset(xs);
    }
  }

  /** `xs.sort()`. */
  function Sort(xs: seq<Value>): (r: seq<Value>)
    ensures |r| == |xs|
    ensures multiset(r) == multiset(xs)
    ensures var d := |DefinedOf(xs)|;
      && SortedByText(r[..d])
      && forall i | 0 <= i < |r| :: r[i].Undefined? <==> d <= i
    ensures (forall i | 0 <= i < |xs| :: !xs[i].Undefined?) ==> r == SortDefined(xs)
  {
    var defined, undefined := DefinedOf(xs), UndefinedOf(xs);
    PartsArePermutation(xs);
    var sorted := SortDefined(defined);
    SortDefinedPermutes(defined);
    SortDefinedKeepsDefined(defined);
    var r := sorted + undefined;
    assert r[..|defined|] == sorted;
    assert forall i | |defined| <= i < |r| :: r[i] == undefined[i - |defined|];
    r
  }

  /** No element occurs twice. */
  ghost predicate Distinct(xs: seq<Value>) {
    forall i, j | 0 <= i < j < |xs| :: xs[i] != xs[j]
  }

  lemma RepeatNotDistinct(xs: seq<Value>, i: int, j: int)
    requires 0 <= i < j < |xs| && xs[i] == xs[j]
    ensures !Distinct(xs)
  {
  }

  lemma {:induction false} DistinctIffCountsAtMostOne(xs: seq<Value>)
    ensures Distinct(xs) <==> forall x :: multiset(xs)[x] <= 1
  {
    if |xs| > 0 {
      var rest := xs[1..];
      DistinctIffCountsAtMostOne(rest);
      assert xs == [xs[0]] + rest;
      assert multiset(xs) == multiset{xs[0]} + multiset(rest);
      if Distinct(xs) {
        assert Distinct(rest) by {
          forall i, j | 0 <= i < j < |rest|
            ensures rest[i] != rest[j]
          {
            assert xs[i + 1] != xs[j + 1];
          }
        }
        assert forall j | 0 <= j < |rest| :: rest[j] != xs[0] by {
          forall j | 0 <= j < |rest|
            ensures rest[j] != xs[0]
          {
            assert rest[j] == xs[j + 1];
          }
        }
        assert xs[0] !in rest;
      }
      if forall x :: multiset(xs)[x] <= 1 {
        assert forall x :: multiset(rest)[x] <= multiset(xs)[x];
        assert multiset(rest)[xs[0]] == 0;
        assert xs[0] !in rest;
        forall i, j | 0 <= i < j < |xs|
          ensures xs[i] != xs[j]
        {
          if i == 0 {
            assert xs[j] == rest[j - 1];
          } else {
            assert xs[i] == rest[i - 1] && xs[j] == rest[j - 1];
          }
        }
      }
    }
  }

  /** Reordering neither creates nor removes duplicates. */
  lemma DistinctPermutation(a: seq<Value>, b: seq<Value>)
    requires multiset(a) == multiset(b)
    ensures Distinct(a) <==> Distinct(b)
  {
    DistinctIffCountsAtMostOne(a);
    DistinctIffCountsAtMostOne(b);
  }

  /** In a sorted sequence whose neighbours have different strings, every
      earlier string is strictly smaller than every later one. */
  lemma {:induction false} SortedStrictPair(s: seq<Value>, i: int, j: int)
    requires SortedByText(s)
    requires forall k | 0 < k < |s| :: ToStr(s[k]) != ToStr(s[k - 1])
    requires 0 <= i < j < |s|
    ensures Lt(ToStr(s[i]), ToStr(s[j]))
    decreases j - i
  {
    assert TextLe(s[j - 1], s[j]);
    LtTrichotomy(ToStr(s[j - 1]), ToStr(s[j]));
    if i < j - 1 {
      SortedStrictPair(s, i, j - 1);
      LtTransitive(ToStr(s[i]), ToStr(s[j - 1]), ToStr(s[j]));
    }
  }

  /** In a sorted sequence no later element sorts strictly before an
      earlier one. */
  lemma {:induction false} SortedPairs(s: seq<Value>, i: int, j: int)
    requires SortedByText(s)
    requires 0 <= i < j < |s|
    ensures TextLe(s[i], s[j])
    decreases j - i
  {
    if i < j - 1 {
      SortedPairs(s, i, j - 1);
      assert TextLe(s[j - 1], s[j]);
      if Lt(ToStr(s[j]), ToStr(s[i])) {
        LtTrichotomy(ToStr(s[j - 1]), ToStr(s[j]));
        LtTrichotomy(ToStr(s[i]), ToStr(s[j - 1]));
        if Lt(ToStr(s[j - 1]), ToStr(s[j])) {
          LtTransitive(ToStr(s[j - 1]), ToStr(s[j]), ToStr(s[i]));
        }
      }
    }
  }

  /** An element that sorts before none of a sorted sequence is inserted
      at its end. */
  lemma {:induction false} InsertAtEnd(x: Value, t: seq<Value>)
    requires forall i | 0 <= i < |t| :: !Lt(ToStr(x), ToStr(t[i]))
    ensures Insert(x, t) == t + [x]
  {
    if |t| > 0 {
      InsertAtEnd(x, t[1..]);
      assert t == [t[0]] + t[1..];
    }
  }

  lemma SortedFront(xs: seq<Value>)
    requires SortedByText(xs) && |xs| > 0
    ensures SortedByText(xs[..|xs| - 1])
  {
    var front := xs[..|xs| - 1];
    forall i | 0 <= i < |front| - 1
      ensures TextLe(front[i], front[i + 1])
    {
      assert TextLe(xs[i], xs[i + 1]);
    }
  }

  /** No element sorts strictly before an earlier one. */
  predicate Ordered(s: seq<Value>) {
    forall i, j | 0 <= i < j < |s| :: !Lt(ToStr(s[j]), ToStr(s[i]))
  }

  lemma SortedIsOrdered(s: seq<Value>)
    requires SortedByText(s)
    ensures Ordered(s)
  {
    forall i, j | 0 <= i < j < |s|
      ensures !Lt(ToStr(s[j]), ToStr(s[i]))
    {
      SortedPairs(s, i, j);
    }
  }

  /** Dropping the last element of an ordered sequence keeps it ordered,
      and the dropped element sorts before none of the rest. */
  lemma OrderedFront(xs: seq<Value>)
    requires Ordered(xs) && |xs| > 0
    ensures var front := xs[..|xs| - 1];
      && Ordered(front)
      && forall i | 0 <= i < |front| :: !Lt(ToStr(xs[|xs| - 1]), ToStr(front[i]))
  {
    var front := xs[..|xs| - 1];
    forall i, j | 0 <= i < j < |front|
      ensures !Lt(ToStr(front[j]), ToStr(front[i]))
    {
      assert front[i] == xs[i] && front[j] == xs[j];
    }
    forall i | 0 <= i < |front|
      ensures !Lt(ToStr(xs[|xs| - 1]), ToStr(front[i]))
    {
      assert front[i] == xs[i];
    }
  }

  /** Appending an element that sorts before none of a sequence that
      insertion sort leaves alone. */
  lemma SortDefinedSnoc(front: seq<Value>, x: Value)
    requires SortDefined(front) == front
    requires forall i | 0 <= i < |front| :: !Lt(ToStr(x), ToStr(front[i]))
    ensures SortDefined(front + [x]) == front + [x]
  {
    var xs := front + [x];
    assert xs[..|xs| - 1] == front && xs[|xs| - 1] == x;
    InsertAtEnd(x, front);
  }

  /** Insertion sort of an ordered sequence leaves it as it is. */
  lemma {:induction false} SortDefinedOfOrdered(xs: seq<Value>)
    requires Ordered(xs)
    ensures SortDefined(xs) == xs
  {
    if |xs| > 0 {
      var front, x := xs[..|xs| - 1], xs[|xs| - 1];
      OrderedFront(xs);
      SortDefinedOfOrdered(front);
      SortDefinedSnoc(front, x);
      assert xs == front + [x];
    }
  }

  /** Sorting a sequence that is already in order leaves it as it is. */
  lemma SortDefinedOfSorted(xs: seq<Value>)
    requires SortedByText(xs)
    ensures SortDefined(xs) == xs
  {
    SortedIsOrdered(xs);
    SortDefinedOfOrdered(xs);
  }

  /** Elements that all have the same string are left in place. */
  lemma SortOfAlike(xs: seq<Value>, s: string)
    requires forall i | 0 <= i < |xs| :: !xs[i].Undefined? && ToStr(xs[i]) == s
    ensures Sort(xs) == xs
  {
    LtIrreflexive(s);
    assert SortedByText(xs);
    SortDefinedOfSorted(xs);
  }

  /** `x` is not `undefined` and its string is `s`. */
  predicate HasText(x: Value, s: string) {
    !x.Undefined? && ToStr(x) == s
  }

  /** The elements of `xs` other than `undefined` whose string is `s`, in
      their order in `xs`. */
  function WithText(xs: seq<Value>, s: string): (r: seq<Value>)
    ensures forall i | 0 <= i < |r| :: HasText(r[i], s)
  {
    if |xs| == 0 then []
    else (if HasText(xs[0], s) then [xs[0]] else []) + WithText(xs[1..], s)
  }

  lemma {:induction false} WithTextConcat(a: seq<Value>, b: seq<Value>, s: string)
    ensures WithText(a + b, s) == WithText(a, s) + WithText(b, s)
  {
    if |a| == 0 {
      assert a + b == b;
    } else {
      assert (a + b)[0] == a[0] && (a + b)[1..] == a[1..] + b;
      WithTextConcat(a[1..], b, s);
    }
  }

  lemma {:induction false} WithTextNone(xs: seq<Value>, s: string)
    requires forall i | 0 <= i < |xs| :: !HasText(xs[i], s)
    ensures WithText(xs, s) == []
  {
    if |xs| > 0 {
      assert forall i | 0 <= i < |xs| - 1 :: xs[1..][i] == xs[i + 1];
      WithTextNone(xs[1..], s);
    }
  }

  lemma OrderedTail(t: seq<Value>)
    requires Ordered(t) && |t| > 0
    ensures Ordered(t[1..])
  {
    forall i, j | 0 <= i < j < |t| - 1
      ensures !Lt(ToStr(t[1..][j]), ToStr(t[1..][i]))
    {
      assert t[1..][i] == t[i + 1] && t[1..][j] == t[j + 1];
    }
  }

  /** In an ordered sequence whose first string is greater than `s`, no
      element has the string `s`. */
  lemma NoneWithSmallerText(t: seq<Value>, s: string)
    requires Ordered(t) && |t| > 0 && Lt(s, ToStr(t[0]))
    ensures WithText(t, s) == []
  {
    forall i | 0 <= i < |t|
      ensures !HasText(t[i], s)
    {
      if i == 0 {
        LtIrreflexive(s);
      } else {
        assert !Lt(ToStr(t[i]), ToStr(t[0]));
      }
    }
    WithTextNone(t, s);
  }

  /** Inserting into an ordered sequence puts the new element after every
      element with the same string. */
  lemma {:induction false} InsertKeepsTextOrder(x: Value, t: seq<Value>, s: string)
    requires Ordered(t)
    ensures WithText(Insert(x, t), s) == WithText(t, s) + WithText([x], s)
  {
    var mine := WithText([x], s);
    if |t| == 0 {
      assert Insert(x, t) == [x] && WithText(t, s) == [];
      assert WithText(Insert(x, t), s) == WithText(t, s) + mine;
    } else if Lt(ToStr(x), ToStr(t[0])) {
      assert Insert(x, t) == [x] + t;
      WithTextConcat([x], t, s);
      if HasText(x, s) {
        NoneWithSmallerText(t, s);
        assert WithText(Insert(x, t), s) == WithText(t, s) + mine;
      } else {
        assert mine == [];
        assert WithText(Insert(x, t), s) == WithText(t, s) + mine;
      }
    } else {
      var rest := Insert(x, t[1..]);
      var first := WithText([t[0]], s);
      assert Insert(x, t) == [t[0]] + rest;
      OrderedTail(t);
      InsertKeepsTextOrder(x, t[1..], s);
      WithTextConcat([t[0]], rest, s);
      HeadAndTail(t);
      WithTextConcat([t[0]], t[1..], s);
      assert WithText(Insert(x, t), s) == first + (WithText(t[1..], s) + mine);
      assert WithText(t, s) == first + WithText(t[1..], s);
      ConcatAssociates(first, WithText(t[1..], s), mine);
    }
  }

  /** Insertion sort keeps elements with the same string in their order. */
  lemma {:induction false} SortDefinedKeepsTextOrder(xs: seq<Value>, s: string)
    ensures WithText(SortDefined(xs), s) == WithText(xs, s)
  {
    if |xs| > 0 {
      var front, last := xs[..|xs| - 1], xs[|xs| - 1];
      var sorted := SortDefined(front);
      assert SortDefined(xs) == Insert(last, sorted);
      SortDefinedKeepsTextOrder(front, s);
      SortedIsOrdered(sorted);
      InsertKeepsTextOrder(last, sorted, s);
      FrontAndLast(xs);
      WithTextConcat(front, [last], s);
    }
  }

  /** Setting the `undefined` elements aside keeps the others' order. */
  lemma {:induction false} DefinedOfKeepsText(xs: seq<Value>, s: string)
    ensures WithText(DefinedOf(xs), s) == WithText(xs, s)
    ensures WithText(UndefinedOf(xs), s) == []
  {
    WithTextNone(UndefinedOf(xs), s);
    if |xs| > 0 {
      DefinedOfKeepsText(xs[1..], s);
      if !xs[0].Undefined? {
        WithTextConcat([xs[0]], DefinedOf(xs[1..]), s);
      }
    }
  }

  /** The sort is stable: elements with the same string keep their
      original order. With the permutation and the order `Sort` ensures,
      this determines its result. */
  lemma SortIsStable(xs: seq<Value>)
    ensures forall s :: WithText(Sort(xs), s) == WithText(xs, s)
  {
    forall s
      ensures WithText(Sort(xs), s) == WithText(xs, s)
    {
      var d := DefinedOf(xs);
      WithTextConcat(SortDefined(d), UndefinedOf(xs), s);
      SortDefinedKeepsTextOrder(d, s);
      DefinedOfKeepsText(xs, s);
    }
  }
}
