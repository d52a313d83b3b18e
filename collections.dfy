/**
 * The list operations every store collection is built from: selecting the
 * records whose key is (or is not) a given value, finding the first record
 * with a key, replacing-or-appending by key, and keeping the last few
 * records. Each is a specification function with its laws, and the loops
 * the Go code runs over its slices are methods proved to compute them.
 */
module Collections {
  import opened Common

  /** The key of a list of plain strings: the string itself. */
  function Ident(s: string): string { s }

  /** The records whose key equals `k` (when `keep`) or differs from it (when not), in their order. */
  function Select<T>(xs: seq<T>, key: T -> string, k: string, keep: bool): (r: seq<T>)
    ensures |r| <= |xs|
    ensures forall i :: 0 <= i < |r| ==> (key(r[i]) == k) == keep
    decreases |xs|
  {
    if xs == [] then []
    else
      var last := xs[|xs| - 1];
      Select(xs[..|xs| - 1], key, k, keep) + (if (key(last) == k) == keep then [last] else [])
  }

  /** Selecting distributes over concatenation: the selection keeps the records' order. */
  lemma {:induction false} SelectAppend<T>(xs: seq<T>, ys: seq<T>, key: T -> string, k: string, keep: bool)
    ensures Select(xs + ys, key, k, keep) == Select(xs, key, k, keep) + Select(ys, key, k, keep)
    decreases |ys|
  {
    if ys == [] {
      assert xs + ys == xs;
    } else {
      var ys' := ys[..|ys| - 1];
      assert (xs + ys)[..|xs + ys| - 1] == xs + ys';
      SelectAppend(xs, ys', key, k, keep);
    }
  }

  /** A record is selected exactly when it is in the list and its key passes. */
  lemma {:induction false} SelectMembership<T>(xs: seq<T>, key: T -> string, k: string, keep: bool, x: T)
    ensures x in Select(xs, key, k, keep) <==> x in xs && (key(x) == k) == keep
    decreases |xs|
  {
    if xs != [] {
      var init := xs[..|xs| - 1];
      SelectMembership(init, key, k, keep, x);
      assert xs == init + [xs[|xs| - 1]];
    }
  }

  /** A list whose every key passes is selected whole. */
  lemma {:induction false} SelectAll<T>(xs: seq<T>, key: T -> string, k: string, keep: bool)
    requires forall i :: 0 <= i < |xs| ==> (key(xs[i]) == k) == keep
    ensures Select(xs, key, k, keep) == xs
    decreases |xs|
  {
    if xs != [] {
      SelectAll(xs[..|xs| - 1], key, k, keep);
    }
  }

  /** The loop of the Go code: walk the slice and append every record that passes. */
  method SelectLoop<T>(xs: seq<T>, key: T -> string, k: string, keep: bool) returns (r: seq<T>)
    ensures r == Select(xs, key, k, keep)
  {
    r := [];
    var i := 0;
    while i < |xs|
      invariant 0 <= i <= |xs|
      invariant r == Select(xs[..i], key, k, keep)
    {
      assert xs[..i + 1][..i] == xs[..i];
      if (key(xs[i]) == k) == keep {
        r := r + [xs[i]];
      }
      i := i + 1;
    }
    assert xs[..|xs|] == xs;
  }

  /** The position of the first record whose key is `k`. */
  function FirstIndex<T>(xs: seq<T>, key: T -> string, k: string): (r: Option<nat>)
    ensures r.Some? ==> r.value < |xs| && key(xs[r.value]) == k
    ensures r.Some? ==> forall j :: 0 <= j < r.value ==> key(xs[j]) != k
    ensures r.None? ==> forall j :: 0 <= j < |xs| ==> key(xs[j]) != k
    decreases |xs|
  {
    if xs == [] then None
    else if key(xs[0]) == k then Some(0)
    else
      match FirstIndex(xs[1..], key, k)
      case None => None
      case Some(j) => Some(j + 1)
  }

  /** The first record whose key is `k`, if there is one. */
  function Find<T>(xs: seq<T>, key: T -> string, k: string): (r: Option<T>)
    ensures r.Some? ==> key(r.value) == k && r.value in xs
    ensures r.None? <==> forall i :: 0 <= i < |xs| ==> key(xs[i]) != k
  {
    match FirstIndex(xs, key, k)
    case None => None
    case Some(i) => Some(xs[i])
  }

  /** The lookup loop of the Go code: return the first match. */
  method FindLoop<T>(xs: seq<T>, key: T -> string, k: string) returns (r: Option<T>)
    ensures r == Find(xs, key, k)
  {
    var i := 0;
    while i < |xs|
      invariant 0 <= i <= |xs|
      invariant forall j :: 0 <= j < i ==> key(xs[j]) != k
    {
      if key(xs[i]) == k {
        FirstIndexIs(xs, key, k, i);
        return Some(xs[i]);
      }
      i := i + 1;
    }
    return None;
  }

  /** The first index is the one before which no key matches. */
  lemma {:induction false} FirstIndexIs<T>(xs: seq<T>, key: T -> string, k: string, i: nat)
    requires i < |xs| && key(xs[i]) == k
    requires forall j :: 0 <= j < i ==> key(xs[j]) != k
    ensures FirstIndex(xs, key, k) == Some(i)
    decreases i
  {
    if i > 0 {
      FirstIndexIs(xs[1..], key, k, i - 1);
    }
  }

  /** A lookup in `a + b` finds what `a` has, and otherwise what `b` has. */
  lemma FindAppend<T>(a: seq<T>, b: seq<T>, key: T -> string, k: string)
    ensures Find(a + b, key, k) == if Find(a, key, k).Some? then Find(a, key, k) else Find(b, key, k)
  {
    var p := FirstIndex(a, key, k);
    var q := FirstIndex(b, key, k);
    if p.Some? {
      FirstIndexIs(a + b, key, k, p.value);
    } else if q.Some? {
      FirstIndexIs(a + b, key, k, |a| + q.value);
    } else {
      forall j | 0 <= j < |a + b|
        ensures key((a + b)[j]) != k
      {
        if j >= |a| {
          assert (a + b)[j] == b[j - |a|];
        }
      }
    }
  }

  /** `x` in place of the first record with its key, or appended when there is none. */
  function Upsert<T>(xs: seq<T>, key: T -> string, x: T): (r: seq<T>)
    ensures x in r
    ensures |r| == if Find(xs, key, key(x)).Some? then |xs| else |xs| + 1
  {
    match FirstIndex(xs, key, key(x))
    case Some(i) => assert xs[i := x][i] == x; xs[i := x]
    case None => xs + [x]
  }

  /**
   * The save loop of the Go code: overwrite the first record with the same
   * key and stop, or append when the walk finds none.
   */
  method UpsertLoop<T>(xs: seq<T>, key: T -> string, x: T) returns (r: seq<T>)
    ensures r == Upsert(xs, key, x)
  {
    r := xs;
    var updated := false;
    var i := 0;
    while i < |r|
      invariant 0 <= i <= |r| && r == xs && !updated
      invariant forall j :: 0 <= j < i ==> key(xs[j]) != key(x)
    {
      if key(r[i]) == key(x) {
        FirstIndexIs(xs, key, key(x), i);
        r := r[i := x];
        updated := true;
        break;
      }
      i := i + 1;
    }
    if !updated {
      r := r + [x];
    }
  }

  /**
   * An upsert either replaces one record, keeping the length and every other
   * record, or appends one; either way exactly the records with other keys
   * are kept and `x` is what a lookup of its key now finds.
   */
  lemma UpsertShape<T>(xs: seq<T>, key: T -> string, x: T)
    ensures FirstIndex(xs, key, key(x)).Some? ==>
      var i := FirstIndex(xs, key, key(x)).value;
      |Upsert(xs, key, x)| == |xs| && Upsert(xs, key, x)[i] == x
      && forall j :: 0 <= j < |xs| && j != i ==> Upsert(xs, key, x)[j] == xs[j]
    ensures FirstIndex(xs, key, key(x)).None? ==> Upsert(xs, key, x) == xs + [x]
    ensures Find(Upsert(xs, key, x), key, key(x)) == Some(x)
  {
    var r := Upsert(xs, key, x);
    match FirstIndex(xs, key, key(x))
    case Some(i) =>
      FirstIndexIs(r, key, key(x), i);
    case None =>
      FirstIndexIs(r, key, key(x), |xs|);
  }

  /** Lookups of every other key are not affected by an upsert. */
  lemma UpsertOtherKeys<T>(xs: seq<T>, key: T -> string, x: T, k: string)
    requires k != key(x)
    ensures Find(Upsert(xs, key, x), key, k) == Find(xs, key, k)
  {
    var p := FirstIndex(xs, key, key(x));
    if p.Some? {
      var r := xs[p.value := x];
      var q := FirstIndex(xs, key, k);
      if q.Some? {
        FirstIndexIs(r, key, k, q.value);
      } else {
        assert forall j :: 0 <= j < |r| ==> key(r[j]) != k;
      }
    } else {
      FindAppend(xs, [x], key, k);
    }
  }

  /** Deleting by key: every record whose key differs, in order. */
  function Remove<T>(xs: seq<T>, key: T -> string, k: string): (r: seq<T>)
    ensures |r| <= |xs|
    ensures forall i :: 0 <= i < |r| ==> key(r[i]) != k
  {
    Select(xs, key, k, false)
  }

  /** After a delete no record has the key, and every other key finds what it found before. */
  lemma RemoveLookups<T>(xs: seq<T>, key: T -> string, k: string, k': string)
    ensures Find(Remove(xs, key, k), key, k) == None
    ensures k' != k ==> Find(Remove(xs, key, k), key, k') == Find(xs, key, k')
  {
    if k' != k {
      RemoveOther(xs, key, k, k');
    }
  }

  lemma {:induction false} RemoveOther<T>(xs: seq<T>, key: T -> string, k: string, k': string)
    requires k' != k
    ensures Find(Remove(xs, key, k), key, k') == Find(xs, key, k')
    decreases |xs|
  {
    if xs != [] {
      var init := xs[..|xs| - 1];
      var last := xs[|xs| - 1];
      assert xs == init + [last];
      var kept := if key(last) != k then [last] else [];
      assert Remove(xs, key, k) == Remove(init, key, k) + kept;
      RemoveOther(init, key, k, k');
      FindAppend(Remove(init, key, k), kept, key, k');
      FindAppend(init, [last], key, k');
    }
  }

  /** The last `n` records, or all of them when there are no more than `n`. */
  function LastN<T>(xs: seq<T>, n: nat): (r: seq<T>)
    ensures |r| <= n || r == xs
  {
    if |xs| > n then xs[|xs| - n..] else xs
  }

  ghost predicate IsSuffix<T>(r: seq<T>, xs: seq<T>)
  {
    |r| <= |xs| && r == xs[|xs| - |r|..]
  }

  /** What is kept is a suffix, of length `n` when there were more. */
  lemma LastNSuffix<T>(xs: seq<T>, n: nat)
    ensures IsSuffix(LastN(xs, n), xs)
    ensures |LastN(xs, n)| == if |xs| > n then n else |xs|
  {
  }
}
