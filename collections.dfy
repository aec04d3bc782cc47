/** Sequence operations the exporters use: pandas' unique() (first appearance),
    unique() followed by sort_values(), dropna(), and boolean row selection
    by a key column, with the facts that make those selections partitions. */
module Collections {
  import opened Wrappers
  import opened Text

  predicate Distinct<T(==)>(xs: seq<T>)
  {
    forall i, j :: 0 <= i < j < |xs| ==> xs[i] != xs[j]
  }

  predicate StrictlySorted(xs: seq<string>)
  {
    forall i, j :: 0 <= i < j < |xs| ==> Less(xs[i], xs[j])
  }

  lemma SortedIsDistinct(xs: seq<string>)
    requires StrictlySorted(xs)
    ensures Distinct(xs)
  {
    forall i, j | 0 <= i < j < |xs| ensures xs[i] != xs[j] {
      LessIrreflexive(xs[i]);
    }
  }

  /** Insert x into a strictly sorted sequence, unless it is already there. */
  function Insert(xs: seq<string>, x: string): (r: seq<string>)
    requires StrictlySorted(xs)
    ensures StrictlySorted(r)
    ensures forall y :: y in r <==> y in xs || y == x
  {
    if xs == [] then [x]
    else if x == xs[0] then xs
    else if Less(x, xs[0]) then
      assert forall j :: 0 <= j < |xs| ==> Less(x, xs[j]) by {
        forall j | 0 <= j < |xs| ensures Less(x, xs[j]) {
          if j > 0 { LessTransitive(x, xs[0], xs[j]); }
        }
      }
      [x] + xs
    else
      LessTotal(x, xs[0]);
      assert StrictlySorted(xs[1..]);
      var rest := Insert(xs[1..], x);
      assert forall j :: 0 <= j < |rest| ==> Less(xs[0], rest[j]) by {
        forall j | 0 <= j < |rest| ensures Less(xs[0], rest[j]) {
          assert rest[j] in rest;
        }
      }
      [xs[0]] + rest
  }

  /** The distinct values of xs in increasing order:
      pd.Series(values.unique()).sort_values(). */
  function SortedDistinct(xs: seq<string>): (r: seq<string>)
    ensures StrictlySorted(r)
    ensures forall y :: y in r <==> y in xs
  {
    if xs == [] then [] else Insert(SortedDistinct(xs[..|xs| - 1]), xs[|xs| - 1])
  }

  /** Two strictly sorted sequences with the same elements are equal, so
      SortedDistinct is the one sorted listing of the distinct values. */
  lemma {:induction false} SortedListingUnique(xs: seq<string>, ys: seq<string>)
    requires StrictlySorted(xs) && StrictlySorted(ys)
    requires forall y :: y in xs <==> y in ys
    ensures xs == ys
  {
    if xs != [] { assert xs[0] in ys; }
    if ys != [] { assert ys[0] in xs; }
    if xs != [] && ys != [] {
      var i :| 0 <= i < |xs| && xs[i] == ys[0];
      var j :| 0 <= j < |ys| && ys[j] == xs[0];
      assert i == 0 || Less(xs[0], ys[0]);
      assert j == 0 || Less(ys[0], xs[0]);
      LessAsymmetric(xs[0], ys[0]);
      assert xs[0] == ys[0];
      forall y ensures y in xs[1..] <==> y in ys[1..] {
        if y in xs[1..] {
          var k :| 0 <= k < |xs| - 1 && xs[1..][k] == y;
          assert Less(xs[0], xs[k + 1]);
          LessIrreflexive(y);
          assert y in ys;
        }
        if y in ys[1..] {
          var k :| 0 <= k < |ys| - 1 && ys[1..][k] == y;
          assert Less(ys[0], ys[k + 1]);
          LessIrreflexive(y);
          assert y in xs;
        }
      }
      SortedListingUnique(xs[1..], ys[1..]);
      assert xs == [xs[0]] + xs[1..] && ys == [ys[0]] + ys[1..];
    }
  }

  /** The first index at which x occurs in xs. */
  function IndexOf<T(==)>(xs: seq<T>, x: T): (k: nat)
    requires x in xs
    ensures k < |xs| && xs[k] == x && x !in xs[..k]
  {
    if xs[0] == x then 0
    else
      var k := IndexOf(xs[1..], x);
      assert xs[..k + 1] == [xs[0]] + xs[1..][..k];
      k + 1
  }

  lemma {:induction false} IndexOfPrefix<T(!new)>(xs: seq<T>, ys: seq<T>, x: T)
    requires x in xs
    ensures IndexOf(xs + ys, x) == IndexOf(xs, x)
  {
    if xs[0] != x {
      assert (xs + ys)[1..] == xs[1..] + ys;
      IndexOfPrefix(xs[1..], ys, x);
    }
  }

  /** pandas' Series.unique(): each value once, in order of first appearance. */
  function Unique<T(==,!new)>(xs: seq<T>): (r: seq<T>)
    ensures Distinct(r)
    ensures forall y :: y in r <==> y in xs
  {
    if xs == [] then []
    else
      var u := Unique(xs[..|xs| - 1]);
      if xs[|xs| - 1] in u then u else u + [xs[|xs| - 1]]
  }

  /** Unique lists the values in the order in which they first appear in xs. */
  lemma {:induction false} UniqueFirstAppearance<T(!new)>(xs: seq<T>)
    ensures forall i, j :: 0 <= i < j < |Unique(xs)| ==>
      IndexOf(xs, Unique(xs)[i]) < IndexOf(xs, Unique(xs)[j])
  {
    if xs != [] {
      var init, last := xs[..|xs| - 1], xs[|xs| - 1];
      assert xs == init + [last];
      UniqueFirstAppearance(init);
      var u := Unique(init);
      forall y | y in u ensures IndexOf(xs, y) == IndexOf(init, y) {
        IndexOfPrefix(init, [last], y);
      }
      if last !in u {
        assert last !in init;
        assert forall k :: 0 <= k < |xs| - 1 ==> xs[k] == init[k];
        assert IndexOf(xs, last) == |xs| - 1;
      }
    }
  }

  /** dropna(): the present values, in order. */
  function Present<K(!new)>(xs: seq<Option<K>>): (r: seq<K>)
    ensures forall k :: k in r <==> Some(k) in xs
  {
    if xs == [] then []
    else
      var p := Present(xs[..|xs| - 1]);
      assert xs == xs[..|xs| - 1] + [xs[|xs| - 1]];
      match xs[|xs| - 1]
      case None => p
      case Some(k) => p + [k]
  }

  lemma {:induction false} PresentDistinct<K(!new)>(xs: seq<Option<K>>)
    requires Distinct(xs)
    ensures Distinct(Present(xs))
  {
    if xs != [] {
      var init := xs[..|xs| - 1];
      assert Distinct(init);
      PresentDistinct(init);
      if xs[|xs| - 1].Some? {
        assert xs[|xs| - 1] !in init;
      }
    }
  }

  /** Dropping the nulls after unique() lists the present values in the order
      of their first appearance, as unique() of the present values does. */
  lemma {:induction false} PresentUnique<K(!new)>(xs: seq<Option<K>>)
    ensures Present(Unique(xs)) == Unique(Present(xs))
  {
    if xs != [] {
      var init, last := xs[..|xs| - 1], xs[|xs| - 1];
      PresentUnique(init);
      var u, p := Unique(init), Present(init);
      assert Present(xs) == if last.Some? then p + [last.value] else p;
      if last !in u {
        assert (u + [last])[..|u|] == u;
      }
      if last.Some? {
        assert (p + [last.value])[..|p|] == p;
      }
    }
  }

  /** Rows whose key column equals Some(k), in order: df[df[col] == k]. */
  function KeyRows<T(==,!new), K(==)>(xs: seq<T>, key: T -> Option<K>, k: K): seq<T>
  {
    if xs == [] then [] else (if key(xs[0]) == Some(k) then [xs[0]] else []) + KeyRows(xs[1..], key, k)
  }

  /** The selection holds exactly the rows whose key is Some(k). */
  lemma {:induction false} KeyRowsMembers<T(!new), K>(xs: seq<T>, key: T -> Option<K>, k: K)
    ensures forall x :: x in KeyRows(xs, key, k) <==> x in xs && key(x) == Some(k)
  {
    if xs != [] {
      KeyRowsMembers(xs[1..], key, k);
      assert forall x :: x in xs <==> x == xs[0] || x in xs[1..];
    }
  }

  /** Selecting from a concatenation selects from each part, in order. */
  lemma {:induction false} KeyRowsAppend<T(!new), K>(xs: seq<T>, ys: seq<T>, key: T -> Option<K>, k: K)
    ensures KeyRows(xs + ys, key, k) == KeyRows(xs, key, k) + KeyRows(ys, key, k)
  {
    if xs == [] {
      assert xs + ys == ys;
    } else {
      var x, rest := xs[0], xs[1..];
      assert (xs + ys)[0] == x && (xs + ys)[1..] == rest + ys;
      KeyRowsAppend(rest, ys, key, k);
      var head := if key(x) == Some(k) then [x] else [];
      assert KeyRows(xs + ys, key, k) == head + (KeyRows(rest, key, k) + KeyRows(ys, key, k));
      assert KeyRows(xs, key, k) == head + KeyRows(rest, key, k);
    }
  }

  /** Rows whose key column holds some value (not null), in order. */
  function Keyed<T(==,!new), K>(xs: seq<T>, key: T -> Option<K>): seq<T>
  {
    if xs == [] then [] else (if key(xs[0]).Some? then [xs[0]] else []) + Keyed(xs[1..], key)
  }

  /** The keyed rows are exactly the rows whose key is present. */
  lemma {:induction false} KeyedMembers<T(!new), K>(xs: seq<T>, key: T -> Option<K>)
    ensures forall x :: x in Keyed(xs, key) <==> x in xs && key(x).Some?
  {
    if xs != [] {
      KeyedMembers(xs[1..], key);
      assert forall x :: x in xs <==> x == xs[0] || x in xs[1..];
    }
  }

  /** The rows selected for each of the keys ks, taken together as a multiset. */
  function Bag<T(==,!new), K(==)>(xs: seq<T>, key: T -> Option<K>, ks: seq<K>): multiset<T>
  {
    if ks == [] then multiset{}
    else Bag(xs, key, ks[..|ks| - 1]) + multiset(KeyRows(xs, key, ks[|ks| - 1]))
  }

  lemma {:induction false} BagOfNothing<T(!new), K>(key: T -> Option<K>, ks: seq<K>)
    ensures Bag([], key, ks) == multiset{}
  {
    if ks != [] {
      BagOfNothing(key, ks[..|ks| - 1]);
    }
  }

  lemma {:induction false} BagCons<T(!new), K>(x: T, xs: seq<T>, key: T -> Option<K>, ks: seq<K>)
    requires Distinct(ks)
    ensures Bag([x] + xs, key, ks) ==
      Bag(xs, key, ks) + if key(x).Some? && key(x).value in ks then multiset{x} else multiset{}
  {
    if ks != [] {
      var init, last := ks[..|ks| - 1], ks[|ks| - 1];
      assert ks == init + [last];
      assert Distinct(init);
      assert last !in init;
      BagCons(x, xs, key, init);
      assert ([x] + xs)[1..] == xs;
    }
  }

  /** Selecting by each of a list of distinct keys that covers every present
      key value splits the rows that have a key: each lands in exactly one part. */
  lemma {:induction false} PartitionByKey<T(!new), K>(xs: seq<T>, key: T -> Option<K>, ks: seq<K>)
    requires Distinct(ks)
    requires forall x :: x in xs && key(x).Some? ==> key(x).value in ks
    ensures Bag(xs, key, ks) == multiset(Keyed(xs, key))
  {
    if xs == [] {
      BagOfNothing(key, ks);
    } else {
      PartitionByKey(xs[1..], key, ks);
      assert xs == [xs[0]] + xs[1..];
      BagCons(xs[0], xs[1..], key, ks);
    }
  }

  /** How many entries of ks equal the value held in o. */
  function Occurrences<K(==)>(ks: seq<K>, o: Option<K>): nat
  {
    if ks == [] then 0 else (if o == Some(ks[0]) then 1 else 0) + Occurrences(ks[1..], o)
  }

  lemma {:induction false} OccurrencesAtMostOne<K>(ks: seq<K>, o: Option<K>)
    requires Distinct(ks)
    ensures Occurrences(ks, o) <= 1
    ensures o.Some? && o.value in ks <==> Occurrences(ks, o) == 1
  {
    if ks != [] {
      assert Distinct(ks[1..]);
      OccurrencesAtMostOne(ks[1..], o);
      if o == Some(ks[0]) {
        assert ks[0] !in ks[1..];
      }
      assert o.Some? && o.value in ks <==> o == Some(ks[0]) || (o.Some? && o.value in ks[1..]);
    }
  }

  /** pd.concat: the blocks one after the other. */
  function Flatten<T>(xss: seq<seq<T>>): seq<T>
  {
    if xss == [] then [] else Flatten(xss[..|xss| - 1]) + xss[|xss| - 1]
  }

  /** The sum of the blocks' lengths. */
  function TotalLength<T>(xss: seq<seq<T>>): nat
  {
    if xss == [] then 0 else TotalLength(xss[..|xss| - 1]) + |xss[|xss| - 1]|
  }

  /** A prefix one longer is the prefix with the next element appended. */
  lemma PrefixStep<T>(s: seq<T>, k: nat)
    requires k < |s|
    ensures s[..k + 1] == s[..k] + [s[k]]
  {
  }

  /** The concatenation is as long as the blocks together, and element j of
      block k sits after all the earlier blocks. */
  lemma {:induction false} FlattenAt<T>(xss: seq<seq<T>>, k: nat, j: nat)
    requires k < |xss| && j < |xss[k]|
    ensures |Flatten(xss)| == TotalLength(xss)
    ensures TotalLength(xss[..k]) + j < |Flatten(xss)|
    ensures Flatten(xss)[TotalLength(xss[..k]) + j] == xss[k][j]
  {
    var init := xss[..|xss| - 1];
    FlattenLength(init);
    if k < |xss| - 1 {
      assert init[..k] == xss[..k];
      FlattenAt(init, k, j);
    } else {
      assert xss[..k] == init;
    }
  }

  lemma {:induction false} FlattenLength<T>(xss: seq<seq<T>>)
    ensures |Flatten(xss)| == TotalLength(xss)
  {
    if xss != [] {
      FlattenLength(xss[..|xss| - 1]);
    }
  }

  /** Every index of the concatenation falls inside some block. */
  lemma {:induction false} FlattenFrom<T>(xss: seq<seq<T>>, i: nat)
    requires i < |Flatten(xss)|
    ensures exists k: nat :: k < |xss| && TotalLength(xss[..k]) <= i < TotalLength(xss[..k]) + |xss[k]|
  {
    var init := xss[..|xss| - 1];
    FlattenLength(init);
    if i < |Flatten(init)| {
      FlattenFrom(init, i);
      var k: nat :| k < |init| && TotalLength(init[..k]) <= i < TotalLength(init[..k]) + |init[k]|;
      assert init[..k] == xss[..k] && init[k] == xss[k];
      assert k < |xss| && TotalLength(xss[..k]) <= i < TotalLength(xss[..k]) + |xss[k]|;
    } else {
      var k := |xss| - 1;
      assert xss[..k] == init;
      assert k < |xss| && TotalLength(xss[..k]) <= i < TotalLength(xss[..k]) + |xss[k]|;
    }
  }

  /** The values of a list of outcomes in order, or the first error among them. */
  function Collect<T, E>(rs: seq<Result<T, E>>): Result<seq<T>, E>
  {
    if rs == [] then Ok([])
    else
      match Collect(rs[..|rs| - 1])
      case Err(e) => Err(e)
      case Ok(ts) =>
        match rs[|rs| - 1]
        case Err(e) => Err(e)
        case Ok(t) => Ok(ts + [t])
  }

  /** Once a prefix holds an error, later outcomes change nothing. */
  lemma {:induction false} CollectPrefix<T, E>(rs: seq<Result<T, E>>, k: nat)
    requires k <= |rs| && Collect(rs[..k]).Err?
    ensures Collect(rs) == Collect(rs[..k])
  {
    if k < |rs| {
      var init := rs[..|rs| - 1];
      assert init[..k] == rs[..k];
      CollectPrefix(init, k);
    } else {
      assert rs[..k] == rs;
    }
  }

  /** Collecting succeeds exactly when every outcome does, and then lists their values in order. */
  lemma {:induction false} CollectOk<T, E>(rs: seq<Result<T, E>>)
    ensures Collect(rs).Ok? <==> forall k :: 0 <= k < |rs| ==> rs[k].Ok?
    ensures Collect(rs).Ok? ==>
      |Collect(rs).value| == |rs| && forall k :: 0 <= k < |rs| ==> Collect(rs).value[k] == rs[k].value
  {
    if rs != [] {
      var init := rs[..|rs| - 1];
      CollectOk(init);
      assert forall k :: 0 <= k < |init| ==> init[k] == rs[k];
    }
  }

  /** A failure is the error of the first outcome that is not a value. */
  lemma {:induction false} CollectFirstError<T, E>(rs: seq<Result<T, E>>)
    requires Collect(rs).Err?
    ensures exists k ::
      0 <= k < |rs| && rs[k] == Err(Collect(rs).error) && forall j :: 0 <= j < k ==> rs[j].Ok?
  {
    var init := rs[..|rs| - 1];
    if Collect(init).Err? {
      CollectFirstError(init);
      var k :| 0 <= k < |init| && init[k] == Err(Collect(init).error) &&
        forall j :: 0 <= j < k ==> init[j].Ok?;
      assert forall j :: 0 <= j <= k ==> init[j] == rs[j];
    } else {
      CollectOk(init);
      assert forall j :: 0 <= j < |rs| - 1 ==> init[j] == rs[j];
    }
  }
}
