/** Word-frequency ranking, shared by the two `extract_keywords` functions of the backend
    (backend/ml_classifier.py and backend/ocr_engine.py): a dict counts every word, its keys
    kept in first-occurrence order, and `sorted(word_freq.items(), key=count, reverse=True)`
    orders the counted words; Python's sort is stable, also with `reverse=True`, so words of
    equal count keep the dict's order. The first `top_n` words are the keywords. */
module Ranking {

  /** The number of occurrences of `x` in `xs`. */
  function Count<T(==)>(xs: seq<T>, x: T): nat
    decreases |xs|
  {
    if xs == [] then 0 else Count(xs[..|xs| - 1], x) + (if xs[|xs| - 1] == x then 1 else 0)
  }

  predicate NoDuplicates<T(==)>(s: seq<T>) {
    forall i, j :: 0 <= i < j < |s| ==> s[i] != s[j]
  }

  /** The position of the first occurrence of `x` in `xs`. */
  function FirstIndex<T(==)>(xs: seq<T>, x: T): (i: nat)
    requires x in xs
    ensures i < |xs| && xs[i] == x && x !in xs[..i]
  {
    if xs[0] == x then 0
    else
      var i := 1 + FirstIndex(xs[1..], x);
      assert xs[..i] == [xs[0]] + xs[1..][..i - 1];
      i
  }

  /** The distinct elements of `xs`, each where it first occurs: the keys of a dict that was
      filled from `xs`, in the dict's order. */
  function Distinct<T(==)>(xs: seq<T>): (d: seq<T>)
    ensures forall i :: 0 <= i < |d| ==> d[i] in xs
    ensures forall i :: 0 <= i < |xs| ==> xs[i] in d
    ensures NoDuplicates(d)
    decreases |xs|
  {
    if xs == [] then []
    else
      var d := Distinct(xs[..|xs| - 1]);
      var x := xs[|xs| - 1];
      assert xs == xs[..|xs| - 1] + [x];
      if x in d then d else d + [x]
  }

  lemma {:induction false} FirstIndexOfPrefix<T>(xs: seq<T>, x: T, y: T)
    requires y in xs
    ensures FirstIndex(xs + [x], y) == FirstIndex(xs, y)
    decreases |xs|
  {
    if xs[0] != y {
      assert y in xs[1..];
      assert (xs + [x])[1..] == xs[1..] + [x];
      FirstIndexOfPrefix(xs[1..], x, y);
    }
  }

  /** A dict filled from `xs` lists its keys in order of their first occurrence in `xs`. */
  lemma {:induction false} DistinctInFirstOccurrenceOrder<T>(xs: seq<T>)
    ensures forall i, j :: 0 <= i < j < |Distinct(xs)| ==>
      FirstIndex(xs, Distinct(xs)[i]) < FirstIndex(xs, Distinct(xs)[j])
    decreases |xs|
  {
    if xs != [] {
      var p, x := xs[..|xs| - 1], xs[|xs| - 1];
      assert xs == p + [x];
      DistinctInFirstOccurrenceOrder(p);
      var d := Distinct(p);
      forall y | y in p ensures FirstIndex(xs, y) == FirstIndex(p, y) && FirstIndex(p, y) < |p| {
        FirstIndexOfPrefix(p, x, y);
      }
      if x !in d {
        assert FirstIndex(xs, x) == |p| by {
          assert x !in p;
        }
      }
    }
  }

  /** `word_freq.items()` after counting `xs`: every distinct element with its count, in
      first-occurrence order. */
  function Tally<T(==)>(xs: seq<T>): (r: seq<(T, nat)>)
    ensures |r| == |Distinct(xs)|
  {
    var d := Distinct(xs);
    seq(|d|, i requires 0 <= i < |d| => (d[i], Count(xs, d[i])))
  }

  lemma CountSnoc<T>(xs: seq<T>, x: T, y: T)
    ensures Count(xs + [x], y) == Count(xs, y) + (if x == y then 1 else 0)
  {
    assert (xs + [x])[..|xs|] == xs;
  }

  lemma DistinctSnoc<T>(xs: seq<T>, x: T)
    ensures Distinct(xs + [x]) == if x in Distinct(xs) then Distinct(xs) else Distinct(xs) + [x]
  {
    assert (xs + [x])[..|xs|] == xs;
  }

  /** `d.get(x, 0)` on a dict of counts. */
  function Get<T>(m: map<T, nat>, x: T): nat {
    if x in m then m[x] else 0
  }

  /** The elements of `xs` that satisfy `keep`, in order (a filtering list comprehension). */
  function Filter<T>(xs: seq<T>, keep: T -> bool): (r: seq<T>)
    ensures |r| <= |xs|
    ensures forall i :: 0 <= i < |r| ==> keep(r[i]) && r[i] in xs
    decreases |xs|
  {
    if xs == [] then []
    else
      var r := Filter(xs[..|xs| - 1], keep);
      assert xs == xs[..|xs| - 1] + [xs[|xs| - 1]];
      if keep(xs[|xs| - 1]) then r + [xs[|xs| - 1]] else r
  }

  lemma FilterSnoc<T>(xs: seq<T>, x: T, keep: T -> bool)
    ensures Filter(xs + [x], keep) == Filter(xs, keep) + (if keep(x) then [x] else [])
  {
    assert (xs + [x])[..|xs|] == xs;
  }

  /** `keys` and `freq` are the key order and the counts of a dict filled by counting `xs`. */
  ghost predicate CountedAs<T(!new)>(xs: seq<T>, keys: seq<T>, freq: map<T, nat>) {
    && keys == Distinct(xs)
    && (forall y :: y in freq <==> y in keys)
    && (forall y :: Get(freq, y) == Count(xs, y))
  }

  /** One step of a counting loop `d[x] = d.get(x, 0) + 1`, with the dict's key order in
      `keys`: after the step, keys and counts are those of `xs + [x]`. */
  lemma CountedStep<T(!new)>(xs: seq<T>, x: T, keys: seq<T>, freq: map<T, nat>, keys': seq<T>, freq': map<T, nat>)
    requires CountedAs(xs, keys, freq)
    requires keys' == if x in freq then keys else keys + [x]
    requires freq' == freq[x := Get(freq, x) + 1]
    ensures CountedAs(xs + [x], keys', freq')
  {
    DistinctSnoc(xs, x);
    forall y ensures Get(freq', y) == Count(xs + [x], y) {
      CountSnoc(xs, x, y);
    }
  }

  /** The counting loop `for x in xs: if keep(x): d[x] = d.get(x, 0) + 1` on an empty dict:
      its keys, in insertion order, are the distinct kept elements, and each count is the
      number of times the element is kept. */
  method CountKept<T(==,!new)>(xs: seq<T>, keep: T -> bool) returns (keys: seq<T>, freq: map<T, nat>)
    ensures CountedAs(Filter(xs, keep), keys, freq)
  {
    ghost var kept: seq<T> := [];
    keys, freq := [], map[];
    for i := 0 to |xs|
      invariant kept == Filter(xs[..i], keep)
      invariant CountedAs(kept, keys, freq)
    {
      var x := xs[i];
      assert xs[..i + 1] == xs[..i] + [x];
      FilterSnoc(xs[..i], x, keep);
      if keep(x) {
        var keys', freq' := if x in freq then keys else keys + [x], freq[x := Get(freq, x) + 1];
        CountedStep(kept, x, keys, freq, keys', freq');
        kept := kept + [x];
        keys, freq := keys', freq';
      }
    }
    assert xs[..|xs|] == xs;
  }

  /** `d.items()` of the dict a counting loop leaves: its keys with their counts. */
  function Items<T>(keys: seq<T>, freq: map<T, nat>): seq<(T, nat)>
    requires forall i :: 0 <= i < |keys| ==> keys[i] in freq
  {
    seq(|keys|, i requires 0 <= i < |keys| => (keys[i], freq[keys[i]]))
  }

  lemma ItemsTally<T>(xs: seq<T>, keys: seq<T>, freq: map<T, nat>)
    requires keys == Distinct(xs)
    requires forall y :: y in freq <==> y in keys
    requires forall y :: Get(freq, y) == Count(xs, y)
    ensures Items(keys, freq) == Tally(xs)
  {
  }

  /* ---- the stable sort by descending count ---- */

  predicate Descending<T>(s: seq<(T, nat)>) {
    forall i, j :: 0 <= i < j < |s| ==> s[i].1 >= s[j].1
  }

  predicate DistinctKeys<T(==)>(s: seq<(T, nat)>) {
    forall i, j :: 0 <= i < j < |s| ==> s[i].0 != s[j].0
  }

  /** The items of `s` whose count is `c`, in their order in `s`. A sort is stable when this
      is the same before and after it, for every `c`. */
  function WithCount<T>(s: seq<(T, nat)>, c: nat): seq<(T, nat)>
    decreases |s|
  {
    if s == [] then [] else (if s[0].1 == c then [s[0]] else []) + WithCount(s[1..], c)
  }

  lemma {:induction false} WithCountAppend<T>(a: seq<(T, nat)>, b: seq<(T, nat)>, c: nat)
    ensures WithCount(a + b, c) == WithCount(a, c) + WithCount(b, c)
    decreases |a|
  {
    if a == [] {
      assert a + b == b;
    } else {
      var head := if a[0].1 == c then [a[0]] else [];
      assert (a + b)[0] == a[0];
      assert (a + b)[1..] == a[1..] + b;
      WithCountAppend(a[1..], b, c);
      calc {
        WithCount(a + b, c);
        head + WithCount(a[1..] + b, c);
        head + (WithCount(a[1..], c) + WithCount(b, c));
        (head + WithCount(a[1..], c)) + WithCount(b, c);
      }
    }
  }

  lemma {:induction false} WithCountNone<T>(s: seq<(T, nat)>, c: nat)
    requires forall i :: 0 <= i < |s| ==> s[i].1 < c
    ensures WithCount(s, c) == []
    decreases |s|
  {
    if s != [] {
      WithCountNone(s[1..], c);
    }
  }

  lemma {:induction false} WithCountPrefix<T>(s: seq<(T, nat)>, n: nat, c: nat)
    requires n <= |s|
    ensures WithCount(s[..n], c) <= WithCount(s, c)
  {
    assert s == s[..n] + s[n..];
    WithCountAppend(s[..n], s[n..], c);
  }

  /** Places `it` after every item whose count is at least its own: where a stable sort by
      descending count puts the last of the items it sorts. */
  function InsertByCount<T>(s: seq<(T, nat)>, it: (T, nat)): seq<(T, nat)>
    decreases |s|
  {
    if s == [] then [it]
    else if s[0].1 >= it.1 then [s[0]] + InsertByCount(s[1..], it)
    else [it] + s
  }

  lemma {:induction false} InsertByCountPermutes<T>(s: seq<(T, nat)>, it: (T, nat))
    ensures multiset(InsertByCount(s, it)) == multiset(s) + multiset{it}
    decreases |s|
  {
    if s != [] && s[0].1 >= it.1 {
      InsertByCountPermutes(s[1..], it);
      assert s == [s[0]] + s[1..];
    }
  }

  /** An element of `InsertByCount(s, it)` past its head is `it` or an element of `s[1..]`. */
  lemma InsertByCountTail<T>(s: seq<(T, nat)>, it: (T, nat), j: nat)
    requires s != [] && s[0].1 >= it.1 && 0 < j < |InsertByCount(s, it)|
    ensures InsertByCount(s, it)[j] == it || exists k :: 1 <= k < |s| && s[k] == InsertByCount(s, it)[j]
  {
    var t := InsertByCount(s[1..], it);
    InsertByCountPermutes(s[1..], it);
    var x := InsertByCount(s, it)[j];
    assert x == t[j - 1] && x in multiset(t);
    if x != it {
      assert x in multiset(s[1..]);
      var k :| 0 <= k < |s[1..]| && s[1..][k] == x;
      assert s[k + 1] == x;
    }
  }

  lemma {:induction false} InsertByCountDescending<T>(s: seq<(T, nat)>, it: (T, nat))
    requires Descending(s)
    ensures Descending(InsertByCount(s, it))
    decreases |s|
  {
    var r := InsertByCount(s, it);
    if s != [] && s[0].1 >= it.1 {
      InsertByCountDescending(s[1..], it);
      forall j | 0 < j < |r| ensures s[0].1 >= r[j].1 {
        InsertByCountTail(s, it, j);
      }
      assert forall i, j :: 0 < i < j < |r| ==> r[i] == InsertByCount(s[1..], it)[i - 1] && r[j] == InsertByCount(s[1..], it)[j - 1];
    }
  }

  /** Inserting keeps, for every count, the items of that count in order, `it` last among them. */
  lemma {:induction false} InsertByCountStable<T>(s: seq<(T, nat)>, it: (T, nat), c: nat)
    requires Descending(s)
    ensures WithCount(InsertByCount(s, it), c) == WithCount(s, c) + (if it.1 == c then [it] else [])
    decreases |s|
  {
    if s == [] {
      assert InsertByCount(s, it) == [it];
    } else if s[0].1 >= it.1 {
      DescendingTail(s);
      InsertByCountStable(s[1..], it, c);
      StableAfterHead(s, it, c);
    } else {
      var r := InsertByCount(s, it);
      assert r[0] == it && r[1..] == s;
      if c == it.1 {
        WithCountNone(s, it.1);
      }
    }
  }

  lemma DescendingTail<T>(s: seq<(T, nat)>)
    requires s != [] && Descending(s)
    ensures Descending(s[1..])
  {
    assert forall i :: 0 <= i < |s| - 1 ==> s[1..][i] == s[i + 1];
  }

  /** The step of `InsertByCountStable` where the head of `s` stays in front. */
  lemma StableAfterHead<T>(s: seq<(T, nat)>, it: (T, nat), c: nat)
    requires s != [] && s[0].1 >= it.1
    requires WithCount(InsertByCount(s[1..], it), c) == WithCount(s[1..], c) + (if it.1 == c then [it] else [])
    ensures WithCount(InsertByCount(s, it), c) == WithCount(s, c) + (if it.1 == c then [it] else [])
  {
    var r, t := InsertByCount(s, it), InsertByCount(s[1..], it);
    var head, last := if s[0].1 == c then [s[0]] else [], if it.1 == c then [it] else [];
    assert r == [s[0]] + t;
    assert r[0] == s[0] && r[1..] == t;
    calc {
      WithCount(r, c);
      head + WithCount(t, c);
      head + (WithCount(s[1..], c) + last);
      (head + WithCount(s[1..], c)) + last;
      WithCount(s, c) + last;
    }
  }

  lemma {:induction false} InsertByCountKeys<T>(s: seq<(T, nat)>, it: (T, nat))
    requires DistinctKeys(s) && forall i :: 0 <= i < |s| ==> s[i].0 != it.0
    ensures DistinctKeys(InsertByCount(s, it))
    decreases |s|
  {
    var r := InsertByCount(s, it);
    if s != [] && s[0].1 >= it.1 {
      InsertByCountKeys(s[1..], it);
      forall j | 0 < j < |r| ensures r[0].0 != r[j].0 {
        InsertByCountTail(s, it, j);
      }
      assert forall i, j :: 0 < i < j < |r| ==> r[i] == InsertByCount(s[1..], it)[i - 1] && r[j] == InsertByCount(s[1..], it)[j - 1];
    } else if s != [] {
      assert forall j :: 0 < j < |r| ==> r[j] == s[j - 1];
    }
  }

  /** `sorted(items, key=lambda x: x[1], reverse=True)`: insertion sort, each item placed
      after the earlier items of equal count. */
  function SortByCount<T>(items: seq<(T, nat)>): seq<(T, nat)>
    decreases |items|
  {
    if items == [] then []
    else InsertByCount(SortByCount(items[..|items| - 1]), items[|items| - 1])
  }

  /** The sort is a permutation of its input. */
  lemma {:induction false} SortByCountPermutes<T>(items: seq<(T, nat)>)
    ensures multiset(SortByCount(items)) == multiset(items)
    decreases |items|
  {
    if items != [] {
      var p, last := items[..|items| - 1], items[|items| - 1];
      assert items == p + [last];
      SortByCountPermutes(p);
      InsertByCountPermutes(SortByCount(p), last);
    }
  }

  /** The sort orders by non-increasing count. */
  lemma {:induction false} SortByCountDescending<T>(items: seq<(T, nat)>)
    ensures Descending(SortByCount(items))
    decreases |items|
  {
    if items != [] {
      SortByCountDescending(items[..|items| - 1]);
      InsertByCountDescending(SortByCount(items[..|items| - 1]), items[|items| - 1]);
    }
  }

  /** The sort is stable: for every count, the items of that count keep their order. */
  lemma {:induction false} SortByCountStable<T>(items: seq<(T, nat)>, c: nat)
    ensures WithCount(SortByCount(items), c) == WithCount(items, c)
    decreases |items|
  {
    if items != [] {
      var p, last := items[..|items| - 1], items[|items| - 1];
      assert items == p + [last];
      SortByCountStable(p, c);
      SortByCountDescending(p);
      InsertByCountStable(SortByCount(p), last, c);
      WithCountAppend(p, [last], c);
      assert WithCount([last], c) == (if last.1 == c then [last] else []) by {
        assert [last][1..] == [];
      }
    }
  }

  lemma {:induction false} SortByCountKeys<T>(items: seq<(T, nat)>)
    requires DistinctKeys(items)
    ensures DistinctKeys(SortByCount(items))
    decreases |items|
  {
    if items != [] {
      var p, last := items[..|items| - 1], items[|items| - 1];
      var sp := SortByCount(p);
      SortByCountKeys(p);
      SortByCountPermutes(p);
      forall i | 0 <= i < |sp| ensures sp[i].0 != last.0 {
        assert sp[i] in multiset(p);
        var k :| 0 <= k < |p| && p[k] == sp[i];
        assert items[k] == sp[i];
      }
      InsertByCountKeys(sp, last);
    }
  }

  /** The `top_n` best-counted items: `sorted_words[:top_n]`. */
  function TopItems<T(==)>(xs: seq<T>, n: nat): seq<(T, nat)> {
    var s := SortByCount(Tally(xs));
    if n < |s| then s[..n] else s
  }

  /** The keywords: `[word for word, _ in sorted_words[:top_n]]`. */
  function Ranked<T(==)>(xs: seq<T>, n: nat): seq<T> {
    var t := TopItems(xs, n);
    seq(|t|, i requires 0 <= i < |t| => t[i].0)
  }

  /** Sorting the items of a dict filled by counting `xs` and keeping the first `n` gives the
      top items of `xs`. */
  lemma TopItemsOfCounts<T(!new)>(xs: seq<T>, keys: seq<T>, freq: map<T, nat>, n: nat)
    requires CountedAs(xs, keys, freq)
    ensures forall i :: 0 <= i < |keys| ==> keys[i] in freq
    ensures var s := SortByCount(Items(keys, freq)); TopItems(xs, n) == if n < |s| then s[..n] else s
    ensures var s := SortByCount(Items(keys, freq)); var t := if n < |s| then s[..n] else s;
      |Ranked(xs, n)| == |t| && forall i :: 0 <= i < |t| ==> Ranked(xs, n)[i] == t[i].0
  {
    ItemsTally(xs, keys, freq);
  }

  /** The tallied items: each distinct element of `xs` once, with its count. */
  lemma TallyItems<T>(xs: seq<T>)
    ensures DistinctKeys(Tally(xs))
    ensures forall p :: p in multiset(Tally(xs)) ==> p.0 in xs && p.1 == Count(xs, p.0)
    ensures forall w :: w in xs ==> (w, Count(xs, w)) in multiset(Tally(xs))
  {
    var d, tally := Distinct(xs), Tally(xs);
    assert forall i :: 0 <= i < |tally| ==> tally[i].0 == d[i];
    forall w | w in xs ensures (w, Count(xs, w)) in multiset(tally) {
      var k :| 0 <= k < |xs| && xs[k] == w;
      assert w in d;
      var m :| 0 <= m < |d| && d[m] == w;
      assert tally[m] == (w, Count(xs, w));
    }
  }

  /** The sorted tally: its first `|TopItems(xs, n)|` items are the top items. */
  lemma SortedTally<T>(xs: seq<T>, n: nat)
    ensures var s := SortByCount(Tally(xs));
      && TopItems(xs, n) == s[..|TopItems(xs, n)|]
      && Descending(s) && DistinctKeys(s)
      && multiset(s) == multiset(Tally(xs))
  {
    TallyItems(xs);
    SortByCountPermutes(Tally(xs));
    SortByCountDescending(Tally(xs));
    SortByCountKeys(Tally(xs));
  }

  /** As many keywords as there are distinct words, but no more than `n`. */
  lemma RankedLength<T>(xs: seq<T>, n: nat)
    ensures |Ranked(xs, n)| == |TopItems(xs, n)| == (if n < |Distinct(xs)| then n else |Distinct(xs)|)
  {
    SortByCountPermutes(Tally(xs));
    assert |multiset(SortByCount(Tally(xs)))| == |multiset(Tally(xs))|;
  }

  /** Each keyword is a word of the input, listed with its count. */
  lemma RankedFromInput<T>(xs: seq<T>, n: nat)
    ensures forall i :: 0 <= i < |Ranked(xs, n)| ==>
      Ranked(xs, n)[i] in xs && TopItems(xs, n)[i] == (Ranked(xs, n)[i], Count(xs, Ranked(xs, n)[i]))
  {
    SortedTally(xs, n);
    TallyItems(xs);
    var t, r := TopItems(xs, n), Ranked(xs, n);
    forall i | 0 <= i < |r| ensures r[i] in xs && t[i] == (r[i], Count(xs, r[i])) {
      assert t[i] in multiset(SortByCount(Tally(xs)));
    }
  }

  /** No keyword is listed twice. */
  lemma RankedDistinct<T>(xs: seq<T>, n: nat)
    ensures NoDuplicates(Ranked(xs, n))
  {
    SortedTally(xs, n);
    var t, r := TopItems(xs, n), Ranked(xs, n);
    assert forall i :: 0 <= i < |r| ==> r[i] == t[i].0;
  }

  /** The keywords come in non-increasing count. */
  lemma RankedDescending<T>(xs: seq<T>, n: nat)
    ensures forall i, j :: 0 <= i < j < |Ranked(xs, n)| ==> Count(xs, Ranked(xs, n)[i]) >= Count(xs, Ranked(xs, n)[j])
  {
    SortedTally(xs, n);
    RankedFromInput(xs, n);
  }

  lemma DescendingBound<T>(s: seq<(T, nat)>, k: nat, p: (T, nat))
    requires Descending(s) && 0 < k <= |s| && p in multiset(s)
    requires forall i :: 0 <= i < k ==> s[i] != p
    ensures p.1 <= s[k - 1].1
  {
    var m :| 0 <= m < |s| && s[m] == p;
  }

  /** No word left out is counted more often than the last keyword kept. */
  lemma RankedTop<T>(xs: seq<T>, n: nat)
    ensures var r := Ranked(xs, n);
      forall w :: w in xs && w !in r && |r| > 0 ==> Count(xs, w) <= Count(xs, r[|r| - 1])
  {
    forall w | w in xs && w !in Ranked(xs, n) && |Ranked(xs, n)| > 0
      ensures Count(xs, w) <= Count(xs, Ranked(xs, n)[|Ranked(xs, n)| - 1])
    {
      RankedTopOne(xs, n, w);
    }
  }

  lemma RankedTopOne<T>(xs: seq<T>, n: nat, w: T)
    requires w in xs && w !in Ranked(xs, n) && |Ranked(xs, n)| > 0
    ensures Count(xs, w) <= Count(xs, Ranked(xs, n)[|Ranked(xs, n)| - 1])
  {
    SortedTally(xs, n);
    TallyItems(xs);
    RankedFromInput(xs, n);
    var s, t, r := SortByCount(Tally(xs)), TopItems(xs, n), Ranked(xs, n);
    assert forall i :: 0 <= i < |t| ==> s[i].0 == r[i];
    DescendingBound(s, |t|, (w, Count(xs, w)));
  }

  /** Keywords of equal count come in the order of the dict, which is the order of their
      first occurrence in the input (`DistinctInFirstOccurrenceOrder`). */
  lemma RankedStable<T>(xs: seq<T>, n: nat)
    ensures forall c :: WithCount(TopItems(xs, n), c) <= WithCount(Tally(xs), c)
  {
    SortedTally(xs, n);
    var s := SortByCount(Tally(xs));
    forall c ensures WithCount(TopItems(xs, n), c) <= WithCount(Tally(xs), c) {
      WithCountPrefix(s, |TopItems(xs, n)|, c);
      SortByCountStable(Tally(xs), c);
    }
  }

  /** An item of count `c` at index `i` of `t` is the item at index
      `|WithCount(t[..i], c)|` of `WithCount(t, c)`. */
  lemma WithCountAt<T>(t: seq<(T, nat)>, c: nat, i: nat)
    requires i < |t| && t[i].1 == c
    ensures |WithCount(t[..i], c)| < |WithCount(t, c)|
    ensures WithCount(t, c)[|WithCount(t[..i], c)|] == t[i]
  {
    var rest := [t[i]] + t[i + 1..];
    assert t == t[..i] + rest;
    WithCountAppend(t[..i], rest, c);
    assert rest[1..] == t[i + 1..];
    assert WithCount(rest, c) == [t[i]] + WithCount(t[i + 1..], c);
  }

  /** An item of count `c` before index `j` moves the position of later items of count `c`. */
  lemma WithCountBefore<T>(t: seq<(T, nat)>, c: nat, i: nat, j: nat)
    requires i < j <= |t| && t[i].1 == c
    ensures |WithCount(t[..i], c)| < |WithCount(t[..j], c)|
  {
    var u := t[..j];
    assert u[..i] == t[..i];
    WithCountAt(u, c, i);
    WithCountPrefix(u, i, c);
  }

  lemma {:induction false} WithCountIn<T>(s: seq<(T, nat)>, c: nat, k: nat)
    requires k < |WithCount(s, c)|
    ensures WithCount(s, c)[k] in s
    decreases |s|
  {
    if s[0].1 == c && k == 0 {
    } else {
      var k' := if s[0].1 == c then k - 1 else k;
      WithCountIn(s[1..], c, k');
      assert WithCount(s, c)[k] == WithCount(s[1..], c)[k'];
    }
  }

  lemma {:induction false} WithCountNoDuplicates<T>(s: seq<(T, nat)>, c: nat)
    requires NoDuplicates(s)
    ensures NoDuplicates(WithCount(s, c))
    decreases |s|
  {
    if s != [] {
      var w, tail := WithCount(s, c), WithCount(s[1..], c);
      assert NoDuplicates(s[1..]) by {
        assert forall i :: 0 <= i < |s| - 1 ==> s[1..][i] == s[i + 1];
      }
      WithCountNoDuplicates(s[1..], c);
      if s[0].1 == c {
        forall k | 0 <= k < |tail| ensures tail[k] != s[0] {
          WithCountIn(s[1..], c, k);
        }
        assert w == [s[0]] + tail;
      }
    }
  }

  /** Two keywords of equal count come in the order of their first occurrence in `xs`. */
  lemma RankedTieOne<T>(xs: seq<T>, n: nat, i: nat, j: nat)
    requires i < j < |Ranked(xs, n)|
    requires Count(xs, Ranked(xs, n)[i]) == Count(xs, Ranked(xs, n)[j])
    ensures Ranked(xs, n)[i] in xs && Ranked(xs, n)[j] in xs
    ensures FirstIndex(xs, Ranked(xs, n)[i]) < FirstIndex(xs, Ranked(xs, n)[j])
  {
    var r, t, u, d := Ranked(xs, n), TopItems(xs, n), Tally(xs), Distinct(xs);
    var c := Count(xs, r[i]);
    RankedFromInput(xs, n);
    RankedDistinct(xs, n);
    RankedStable(xs, n);
    // The positions of the two items among the items of count `c` after the sort ...
    WithCountAt(t, c, i);
    WithCountAt(t, c, j);
    WithCountBefore(t, c, i, j);
    var p, q := |WithCount(t[..i], c)|, |WithCount(t[..j], c)|;
    assert WithCount(u, c)[p] == t[i] && WithCount(u, c)[q] == t[j];
    // ... are their positions among the items of count `c` of the dict.
    var a :| 0 <= a < |d| && d[a] == r[i];
    var b :| 0 <= b < |d| && d[b] == r[j];
    assert u[a] == t[i] && u[b] == t[j];
    WithCountAt(u, c, a);
    WithCountAt(u, c, b);
    assert NoDuplicates(u) by {
      assert forall k :: 0 <= k < |u| ==> u[k].0 == d[k];
    }
    WithCountNoDuplicates(u, c);
    assert |WithCount(u[..a], c)| == p && |WithCount(u[..b], c)| == q;
    if b < a {
      WithCountBefore(u, c, b, a);
    }
    assert a < b;
    DistinctInFirstOccurrenceOrder(xs);
  }

  /** Keywords of equal count come in the order of their first occurrence in `xs`. */
  lemma RankedTies<T>(xs: seq<T>, n: nat)
    ensures var r := Ranked(xs, n);
      forall i, j :: 0 <= i < j < |r| && Count(xs, r[i]) == Count(xs, r[j]) ==>
        r[i] in xs && r[j] in xs && FirstIndex(xs, r[i]) < FirstIndex(xs, r[j])
  {
    var r := Ranked(xs, n);
    forall i, j | 0 <= i < j < |r| && Count(xs, r[i]) == Count(xs, r[j])
      ensures r[i] in xs && r[j] in xs && FirstIndex(xs, r[i]) < FirstIndex(xs, r[j])
    {
      RankedTieOne(xs, n, i, j);
    }
  }

  /** `r` ranks `xs` keeping `n`: the `n` most counted distinct elements of `xs` (all of them
      when there are fewer), in non-increasing count, none left out counted more often than
      the last one kept, and elements of equal count in the order of their first occurrence. */
  ghost predicate IsRanking<T>(xs: seq<T>, n: nat, r: seq<T>) {
    && |r| == (if n < |Distinct(xs)| then n else |Distinct(xs)|)
    && (forall i :: 0 <= i < |r| ==> r[i] in xs)
    && NoDuplicates(r)
    && (forall i, j :: 0 <= i < j < |r| ==> Count(xs, r[i]) >= Count(xs, r[j]))
    && (forall w :: w in xs && w !in r && |r| > 0 ==> Count(xs, w) <= Count(xs, r[|r| - 1]))
    && (forall i, j :: 0 <= i < j < |r| && Count(xs, r[i]) == Count(xs, r[j]) ==>
          FirstIndex(xs, r[i]) < FirstIndex(xs, r[j]))
  }

  /** The ranking as a whole. */
  lemma RankedSpec<T>(xs: seq<T>, n: nat)
    ensures IsRanking(xs, n, Ranked(xs, n))
  {
    RankedLength(xs, n);
    RankedFromInput(xs, n);
    RankedDistinct(xs, n);
    RankedDescending(xs, n);
    RankedTop(xs, n);
    RankedTies(xs, n);
  }
}
