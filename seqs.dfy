/** Generic sequence operations shared by the parsers and the formatter. */
module Seqs {
  import opened Wrappers

  // ---------------------------------------------------------------- keeping the present values

  /** The step of an append law proved by peeling the last element: `whole` splits like its prefix does. */
  lemma AppendStep<T>(whole: seq<T>, prefix: seq<T>, left: seq<T>, right: seq<T>, rightPrefix: seq<T>, own: seq<T>)
    requires prefix == left + rightPrefix
    requires whole == prefix + own && right == rightPrefix + own
    ensures whole == left + right
  {
  }

  /** The values held by the `Some` entries of `xs`, in order. */
  function Somes<T>(xs: seq<Option<T>>): (r: seq<T>)
    ensures |r| <= |xs|
    decreases |xs|
  {
    if xs == [] then []
    else Somes(xs[..|xs| - 1]) + (if xs[|xs| - 1].Some? then [xs[|xs| - 1].value] else [])
  }

  lemma SomesSnoc<T>(xs: seq<Option<T>>, x: Option<T>)
    ensures Somes(xs + [x]) == Somes(xs) + (if x.Some? then [x.value] else [])
  {
    assert (xs + [x])[..|xs|] == xs;
  }

  /** Reading one more entry of `xs` appends its value, if it holds one. */
  lemma SomesPrefix<T>(xs: seq<Option<T>>, i: nat)
    requires i < |xs|
    ensures Somes(xs[..i + 1]) == Somes(xs[..i]) + (if xs[i].Some? then [xs[i].value] else [])
  {
    assert xs[..i + 1] == xs[..i] + [xs[i]];
    SomesSnoc(xs[..i], xs[i]);
  }

  /** Keeping the present values commutes with concatenation: order is kept across the seam. */
  lemma {:induction false} SomesAppend<T>(xs: seq<Option<T>>, ys: seq<Option<T>>)
    ensures Somes(xs + ys) == Somes(xs) + Somes(ys)
    decreases |ys|
  {
    if ys == [] {
      assert xs + ys == xs;
    } else {
      var p, y := ys[..|ys| - 1], ys[|ys| - 1];
      assert ys == p + [y];
      assert xs + ys == (xs + p) + [y];
      SomesAppend(xs, p);
      SomesSnoc(xs + p, y);
      SomesSnoc(p, y);
    }
  }

  /** The positions of `xs` that hold a value, in increasing order. */
  ghost function SomePositions<T>(xs: seq<Option<T>>): (ps: seq<nat>)
    ensures forall k :: 0 <= k < |ps| ==> ps[k] < |xs| && xs[ps[k]].Some?
    ensures forall k, l :: 0 <= k < l < |ps| ==> ps[k] < ps[l]
    ensures forall i :: 0 <= i < |xs| && xs[i].Some? ==> i in ps
    decreases |xs|
  {
    if xs == [] then []
    else SomePositions(xs[..|xs| - 1]) + (if xs[|xs| - 1].Some? then [|xs| - 1] else [])
  }

  /**
    Somes keeps exactly the present values and keeps their order: its k-th
    element is the value at the k-th position that holds one.
  */
  lemma {:induction false} SomesAt<T>(xs: seq<Option<T>>)
    ensures |Somes(xs)| == |SomePositions(xs)|
    ensures forall k :: 0 <= k < |Somes(xs)| ==> Somes(xs)[k] == xs[SomePositions(xs)[k]].value
    decreases |xs|
  {
    if xs != [] {
      SomesAt(xs[..|xs| - 1]);
    }
  }

  /** The kept values come from strictly increasing positions: Somes keeps their order. */
  lemma SomesInOrder<T>(xs: seq<Option<T>>)
    ensures exists ps: seq<nat> ::
      && |ps| == |Somes(xs)|
      && (forall k :: 0 <= k < |ps| ==> ps[k] < |xs| && xs[ps[k]] == Some(Somes(xs)[k]))
      && (forall k, l :: 0 <= k < l < |ps| ==> ps[k] < ps[l])
  {
    SomesAt(xs);
    var ps := SomePositions(xs);
    assert forall k :: 0 <= k < |ps| ==> xs[ps[k]] == Some(Somes(xs)[k]);
  }

  /** At most one value per entry, and a value is kept exactly when some position holds it. */
  lemma SomesFrom<T>(xs: seq<Option<T>>, v: T)
    ensures |Somes(xs)| <= |xs|
    ensures v in Somes(xs) <==> exists i :: 0 <= i < |xs| && xs[i] == Some(v)
  {
    SomesMember(xs, v);
  }

  /** A value is kept exactly when some entry holds it. */
  lemma SomesMember<T>(xs: seq<Option<T>>, v: T)
    ensures v in Somes(xs) <==> Some(v) in xs
  {
    SomesAt(xs);
    var ps := SomePositions(xs);
    if Some(v) in xs {
      var i :| 0 <= i < |xs| && xs[i] == Some(v);
      var k :| 0 <= k < |ps| && ps[k] == i;
      assert Somes(xs)[k] == v;
    }
    if v in Somes(xs) {
      var k :| 0 <= k < |Somes(xs)| && Somes(xs)[k] == v;
      assert xs[ps[k]] == Some(v);
    }
  }

  // ---------------------------------------------------------------- stopping at the first error

  /**
    The values of `rs` concatenated in order when every entry succeeded;
    otherwise the error of the first entry that failed, as a loop that
    raises on that entry leaves it.
  */
  function Collect<T, E>(rs: seq<Result<seq<T>, E>>): Result<seq<T>, E>
    decreases |rs|
  {
    if rs == [] then Ok([])
    else
      match Collect(rs[..|rs| - 1])
      case Err(e) => Err(e)
      case Ok(done) =>
        match rs[|rs| - 1]
        case Err(e) => Err(e)
        case Ok(more) => Ok(done + more)
  }

  /** Reading one more entry: a failure so far stays, else the entry's error or values are added. */
  lemma CollectPrefix<T, E>(rs: seq<Result<seq<T>, E>>, i: nat)
    requires i < |rs|
    ensures Collect(rs[..i + 1]) ==
      match Collect(rs[..i])
      case Err(e) => Err(e)
      case Ok(done) => (match rs[i] case Err(e) => Err(e) case Ok(more) => Ok(done + more))
  {
    assert rs[..i + 1][..i] == rs[..i];
  }

  /** Once a prefix has failed, the whole fails with the same error. */
  lemma {:induction false} CollectFailed<T, E>(rs: seq<Result<seq<T>, E>>, i: nat)
    requires i <= |rs| && Collect(rs[..i]).Err?
    ensures Collect(rs).Err? && Collect(rs).error == Collect(rs[..i]).error
    decreases |rs| - i
  {
    if i < |rs| {
      CollectPrefix(rs, i);
      CollectFailed(rs, i + 1);
    } else {
      assert rs[..i] == rs;
    }
  }

  /** Collecting fails exactly when some entry failed, and then with the error of the first one. */
  lemma {:induction false} CollectFails<T, E>(rs: seq<Result<seq<T>, E>>)
    ensures Collect(rs).Err? <==> exists k :: 0 <= k < |rs| && rs[k].Err?
    ensures Collect(rs).Err? ==>
      exists k :: 0 <= k < |rs| && rs[k] == Err(Collect(rs).error) && forall j :: 0 <= j < k ==> rs[j].Ok?
    decreases |rs|
  {
    if rs != [] {
      var p := rs[..|rs| - 1];
      CollectFails(p);
      assert forall k :: 0 <= k < |p| ==> p[k] == rs[k];
    }
  }

  /** When collecting succeeds, entry `k` succeeded. */
  lemma {:induction false} CollectAllOk<T, E>(rs: seq<Result<seq<T>, E>>, k: nat)
    requires Collect(rs).Ok? && k < |rs|
    ensures rs[k].Ok?
    decreases |rs|
  {
    var p := rs[..|rs| - 1];
    if k < |p| {
      CollectAllOk(p, k);
      assert p[k] == rs[k];
    }
  }

  /** When collecting succeeds every entry succeeded, and a value is collected exactly when some entry holds it. */
  lemma {:induction false} CollectValues<T, E>(rs: seq<Result<seq<T>, E>>, v: T)
    requires Collect(rs).Ok?
    ensures forall k :: 0 <= k < |rs| ==> rs[k].Ok?
    ensures v in Collect(rs).value <==> exists k :: 0 <= k < |rs| && v in rs[k].value
    decreases |rs|
  {
    if rs != [] {
      var p := rs[..|rs| - 1];
      CollectValues(p, v);
      assert forall k :: 0 <= k < |p| ==> p[k] == rs[k];
      assert Collect(rs).value == Collect(p).value + rs[|rs| - 1].value;
    }
  }

  // ---------------------------------------------------------------- stable sorting

  /** `le` orders every pair and is transitive: a total preorder, as a sort key's `<=` is. */
  ghost predicate TotalPreorder<T(!new)>(le: (T, T) -> bool)
  {
    && (forall a, b :: le(a, b) || le(b, a))
    && (forall a, b, c :: le(a, b) && le(b, c) ==> le(a, c))
  }

  ghost predicate SortedBy<T>(s: seq<T>, le: (T, T) -> bool)
  {
    forall i, j :: 0 <= i < j < |s| ==> le(s[i], s[j])
  }

  /** Places `x` after the longest prefix of `s` whose elements are `le` to it. */
  function Insert<T>(x: T, s: seq<T>, le: (T, T) -> bool): (r: seq<T>)
    ensures multiset(r) == multiset(s) + multiset{x}
  {
    if s == [] then [x]
    else if le(s[0], x) then
      assert s == [s[0]] + s[1..];
      [s[0]] + Insert(x, s[1..], le)
    else [x] + s
  }

  /**
    Python's `sorted` under the key order `le`: insertion sort that places each
    element after the earlier ones it does not precede, so it is stable.
  */
  function SortBy<T>(xs: seq<T>, le: (T, T) -> bool): (r: seq<T>)
    ensures multiset(r) == multiset(xs)
    decreases |xs|
  {
    if xs == [] then []
    else
      assert xs == xs[..|xs| - 1] + [xs[|xs| - 1]];
      Insert(xs[|xs| - 1], SortBy(xs[..|xs| - 1], le), le)
  }

  lemma {:induction false} InsertSorted<T(!new)>(x: T, s: seq<T>, le: (T, T) -> bool)
    requires TotalPreorder(le) && SortedBy(s, le)
    ensures SortedBy(Insert(x, s, le), le)
    decreases |s|
  {
    if s != [] && le(s[0], x) {
      InsertSorted(x, s[1..], le);
      var r := Insert(x, s[1..], le);
      forall y | y in multiset(r) ensures le(s[0], y) {
        assert y in multiset(s[1..]) + multiset{x};
        if y in multiset(s[1..]) {
          var j :| 0 <= j < |s[1..]| && s[1..][j] == y;
          assert s[j + 1] == y;
        }
      }
      forall j | 0 <= j < |r| ensures le(s[0], r[j]) {
        assert r[j] in multiset(r);
      }
    }
  }

  /** The sort's output is ordered by `le`. */
  lemma {:induction false} SortBySorted<T(!new)>(xs: seq<T>, le: (T, T) -> bool)
    requires TotalPreorder(le)
    ensures SortedBy(SortBy(xs, le), le)
    decreases |xs|
  {
    if xs != [] {
      SortBySorted(xs[..|xs| - 1], le);
      InsertSorted(xs[|xs| - 1], SortBy(xs[..|xs| - 1], le), le);
    }
  }

  // ---------------------------------------------------------------- distinct elements

  ghost predicate Distinct<T>(s: seq<T>)
  {
    forall i, j :: 0 <= i < j < |s| ==> s[i] != s[j]
  }

  /** A permutation of a sequence without repeats has no repeats either. */
  lemma DistinctPermutation<T>(a: seq<T>, b: seq<T>)
    requires Distinct(a) && multiset(a) == multiset(b)
    ensures Distinct(b)
  {
    forall i, j | 0 <= i < j < |b| ensures b[i] != b[j] {
      if b[i] == b[j] {
        assert b == b[..i] + [b[i]] + b[i + 1..j] + [b[j]] + b[j + 1..];
        assert multiset(b)[b[i]] >= 2;
        DistinctCount(a, b[i]);
      }
    }
  }

  lemma {:induction false} DistinctCount<T>(a: seq<T>, x: T)
    requires Distinct(a)
    ensures multiset(a)[x] <= 1
    decreases |a|
  {
    if a != [] {
      assert a == [a[0]] + a[1..];
      DistinctCount(a[1..], x);
      if a[0] == x {
        assert x !in a[1..];
      }
    }
  }

  // ---------------------------------------------------------------- first occurrences

  /**
    The distinct elements of `xs` in the order they first occur, as the keys of
    a Python dict filled from `xs` come out.
  */
  function Dedup<T(==)>(xs: seq<T>): seq<T>
    decreases |xs|
  {
    if xs == [] then []
    else
      var r := Dedup(xs[..|xs| - 1]);
      var x := xs[|xs| - 1];
      if x in r then r else r + [x]
  }

  /** Each element of `xs` is kept exactly once, and nothing else is. */
  lemma {:induction false} DedupSpec<T(!new)>(xs: seq<T>)
    ensures Distinct(Dedup(xs))
    ensures forall x :: x in Dedup(xs) <==> x in xs
    decreases |xs|
  {
    if xs != [] {
      var p, x := xs[..|xs| - 1], xs[|xs| - 1];
      DedupSpec(p);
      var r := Dedup(p);
      assert xs == p + [x];
      if x !in r {
        var r' := r + [x];
        forall i, j | 0 <= i < j < |r'| ensures r'[i] != r'[j] {
          if j == |r| {
            assert r'[i] == r[i] && r[i] in r;
          } else {
            assert r'[i] == r[i] && r'[j] == r[j];
          }
        }
      }
    }
  }

  /** Adding `k` to a map and, when it is new, to the end of a key list keeps the two holding the same keys. */
  lemma KeysStep<K, V>(m: map<K, V>, order: seq<K>, k: K, v: V, m': map<K, V>, order': seq<K>)
    requires forall x :: x in m <==> x in order
    requires m' == m[k := v]
    requires order' == if k in m then order else order + [k]
    ensures forall x :: x in m' <==> x in order'
  {
  }

  lemma DedupSnoc<T(!new)>(xs: seq<T>, x: T)
    ensures Dedup(xs + [x]) == if x in Dedup(xs) then Dedup(xs) else Dedup(xs) + [x]
  {
    assert (xs + [x])[..|xs|] == xs;
  }
}
