/**
 * String operations shared by the Go and Python code: splitting on a
 * one-character separator (Go's hand-written `split`, Python's `str.split`
 * with an explicit separator), joining, stripping trailing characters and
 * searching for a substring.
 */
module Text {
  import opened Common

  /** `n` copies of `c` (Go's `strings.Repeat` of a one-character string). */
  function Repeat(c: char, n: nat): (r: string)
    ensures |r| == n && forall i :: 0 <= i < n ==> r[i] == c
  {
    seq(n, _ => c)
  }

  /** Cutting a concatenation at the seam gives back its two sides. */
  lemma ConcatSlices(a: string, b: string)
    ensures (a + b)[..|a|] == a && (a + b)[|a|..] == b
  {
  }

  /** The parts with `sep` written between neighbours. */
  function Join(parts: seq<string>, sep: char): string
    requires |parts| >= 1
    decreases |parts|
  {
    if |parts| == 1 then parts[0]
    else Join(parts[..|parts| - 1], sep) + [sep] + parts[|parts| - 1]
  }

  /** Joining one more part adds the separator and that part. */
  lemma JoinSnoc(parts: seq<string>, x: string, sep: char)
    requires |parts| >= 1
    ensures Join(parts + [x], sep) == Join(parts, sep) + [sep] + x
  {
    assert (parts + [x])[..|parts|] == parts;
  }

  /** Number of occurrences of `c` in `s`. */
  function Count(s: string, c: char): nat
    decreases |s|
  {
    if s == [] then 0
    else Count(s[..|s| - 1], c) + (if s[|s| - 1] == c then 1 else 0)
  }

  /**
   * The maximal runs of `s` between occurrences of `sep`, empty runs
   * included; defined by reading `s` from its last character backwards.
   */
  function Split(s: string, sep: char): (parts: seq<string>)
    ensures |parts| >= 1
    decreases |s|
  {
    if s == [] then [""]
    else
      var init := Split(s[..|s| - 1], sep);
      if s[|s| - 1] == sep then init + [""] else Extend(init, s[|s| - 1])
  }

  predicate NoneContains(parts: seq<string>, sep: char)
  {
    forall i :: 0 <= i < |parts| ==> sep !in parts[i]
  }

  /** Joining the parts with the separator gives back the string. */
  lemma {:induction false} JoinSplit(s: string, sep: char)
    ensures Join(Split(s, sep), sep) == s
    decreases |s|
  {
    if s != [] {
      var t := s[..|s| - 1];
      var c := s[|s| - 1];
      assert s == t + [c];
      JoinSplit(t, sep);
      var init := Split(t, sep);
      if c == sep {
        assert (init + [""])[..|init|] == init;
      } else {
        JoinLastAppend(init, c, sep);
      }
    }
  }

  /** Extending the last part by one character extends the joined string by it. */
  lemma JoinLastAppend(parts: seq<string>, c: char, sep: char)
    requires |parts| >= 1
    ensures Join(Extend(parts, c), sep) == Join(parts, sep) + [c]
  {
    var q := Extend(parts, c);
    if |parts| > 1 {
      assert q[..|q| - 1] == parts[..|parts| - 1];
    }
  }

  /** No part contains the separator. */
  lemma {:induction false} SplitPartsFree(s: string, sep: char)
    ensures NoneContains(Split(s, sep), sep)
    decreases |s|
  {
    if s != [] {
      var t := s[..|s| - 1];
      SplitPartsFree(t, sep);
      var init := Split(t, sep);
      if s[|s| - 1] != sep {
        var last := init[|init| - 1] + [s[|s| - 1]];
        assert sep !in init[|init| - 1];
        assert sep !in last;
      }
    }
  }

  /** There is one more part than there are separators. */
  lemma {:induction false} SplitCount(s: string, sep: char)
    ensures |Split(s, sep)| == Count(s, sep) + 1
    decreases |s|
  {
    if s != [] {
      SplitCount(s[..|s| - 1], sep);
    }
  }

  /** A string without the separator is its own only part. */
  lemma {:induction false} SplitFree(s: string, sep: char)
    requires sep !in s
    ensures Split(s, sep) == [s]
    decreases |s|
  {
    if s != [] {
      var t := s[..|s| - 1];
      assert s == t + [s[|s| - 1]];
      SplitFree(t, sep);
    }
  }

  /** One more character either starts a new part or extends the last one. */
  lemma SplitSnoc(t: string, c: char, sep: char)
    ensures c == sep ==> Split(t + [c], sep) == Split(t, sep) + [""]
    ensures c != sep ==> Split(t + [c], sep) == Extend(Split(t, sep), c)
  {
    assert (t + [c])[..|t|] == t;
  }

  /** The parts with `c` added to the last one. */
  function Extend(parts: seq<string>, c: char): seq<string>
    requires |parts| >= 1
  {
    parts[..|parts| - 1] + [parts[|parts| - 1] + [c]]
  }

  /** Splitting at a separator occurrence splits the two sides independently. */
  lemma {:induction false} SplitAppend(a: string, b: string, sep: char)
    ensures Split(a + [sep] + b, sep) == Split(a, sep) + Split(b, sep)
    decreases |b|
  {
    if b == [] {
      assert a + [sep] + b == a + [sep];
      SplitSnoc(a, sep, sep);
    } else {
      var b' := b[..|b| - 1];
      var c := b[|b| - 1];
      assert b == b' + [c];
      assert a + [sep] + b == (a + [sep] + b') + [c];
      SplitAppend(a, b', sep);
      SplitSnoc(a + [sep] + b', c, sep);
      SplitSnoc(b', c, sep);
      if c != sep {
        SplitExtendLast(Split(a, sep), Split(b', sep), c);
      }
    }
  }

  lemma SplitExtendLast(sa: seq<string>, sb: seq<string>, c: char)
    requires |sb| >= 1
    ensures Extend(sa + sb, c) == sa + Extend(sb, c)
  {
    var init := sa + sb;
    assert init[..|init| - 1] == sa + sb[..|sb| - 1];
  }

  /** Splitting a join of separator-free parts gives back the parts. */
  lemma {:induction false} SplitJoin(parts: seq<string>, sep: char)
    requires |parts| >= 1 && NoneContains(parts, sep)
    ensures Split(Join(parts, sep), sep) == parts
    decreases |parts|
  {
    var last := parts[|parts| - 1];
    if |parts| == 1 {
      SplitFree(last, sep);
    } else {
      var init := parts[..|parts| - 1];
      assert NoneContains(init, sep) by {
        forall i | 0 <= i < |init|
          ensures sep !in init[i]
        {
          assert init[i] == parts[i];
        }
      }
      SplitJoin(init, sep);
      assert parts == init + [last];
      SplitJoinStep(init, last, sep);
    }
  }

  lemma SplitJoinStep(init: seq<string>, last: string, sep: char)
    requires |init| >= 1 && sep !in last && Split(Join(init, sep), sep) == init
    ensures Split(Join(init + [last], sep), sep) == init + [last]
  {
    var parts := init + [last];
    assert parts[..|parts| - 1] == init;
    SplitFree(last, sep);
    SplitAppend(Join(init, sep), last, sep);
  }

  /** `s` without the characters `c` at its end. */
  function RStrip(s: string, c: char): (r: string)
    ensures |r| <= |s| && r == s[..|r|]
    ensures r == [] || r[|r| - 1] != c
    decreases |s|
  {
    if s != [] && s[|s| - 1] == c then RStrip(s[..|s| - 1], c) else s
  }

  /** Stripping the end of `p + q` touches `p` only when `q` strips away entirely. */
  lemma {:induction false} RStripAppend(p: string, q: string, c: char)
    ensures RStrip(q, c) != [] ==> RStrip(p + q, c) == p + RStrip(q, c)
    ensures RStrip(q, c) == [] ==> RStrip(p + q, c) == RStrip(p, c)
    decreases |q|
  {
    if q != [] {
      var s := p + q;
      assert s[..|s| - 1] == p + q[..|q| - 1];
      if q[|q| - 1] == c {
        RStripAppend(p, q[..|q| - 1], c);
      }
    } else {
      assert p + q == p;
    }
  }

  predicate StartsWith(s: string, t: string)
  {
    |t| <= |s| && s[..|t|] == t
  }

  /** `t` occurs in `s` at position `k`. */
  predicate OccursAt(s: string, t: string, k: int)
  {
    0 <= k && k + |t| <= |s| && s[k..k + |t|] == t
  }

  lemma OccursAtShift(s: string, t: string, k: int)
    requires |s| >= 1 && k >= 1
    ensures OccursAt(s, t, k) <==> OccursAt(s[1..], t, k - 1)
  {
    if k + |t| <= |s| {
      var v := s[k..k + |t|];
      var w := s[1..][k - 1..k - 1 + |t|];
      forall j | 0 <= j < |t|
        ensures v[j] == w[j]
      {
        assert v[j] == s[k + j];
      }
      assert v == w;
    }
  }

  /** The position of the first occurrence of `t` in `s`. */
  function IndexOf(s: string, t: string): (r: Option<nat>)
    ensures r.Some? ==> OccursAt(s, t, r.value)
    ensures r.Some? ==> forall k :: 0 <= k < r.value ==> !OccursAt(s, t, k)
    ensures r.None? ==> forall k :: !OccursAt(s, t, k)
    decreases |s|
  {
    if |s| < |t| then None
    else if s[..|t|] == t then Some(0)
    else
      match IndexOf(s[1..], t)
      case None =>
        assert forall k :: k >= 1 ==> (OccursAt(s, t, k) <==> OccursAt(s[1..], t, k - 1)) by {
          forall k | k >= 1 { OccursAtShift(s, t, k); }
        }
        None
      case Some(k) =>
        assert forall j :: j >= 1 ==> (OccursAt(s, t, j) <==> OccursAt(s[1..], t, j - 1)) by {
          forall j | j >= 1 { OccursAtShift(s, t, j); }
        }
        Some(k + 1)
  }

  /** Python's `t in s` for strings. */
  predicate Contains(s: string, t: string)
  {
    IndexOf(s, t).Some?
  }

  /** A string placed between two others is contained in the whole. */
  lemma ContainsMiddle(a: string, t: string, b: string)
    ensures Contains(a + t + b, t)
  {
    assert (a + t + b)[|a|..|a| + |t|] == t;
    assert OccursAt(a + t + b, t, |a|);
  }

  /** Every character of a string that occurs in `s` is in `s`. */
  lemma ContainsChars(s: string, t: string)
    ensures Contains(s, t) ==> forall i :: 0 <= i < |t| ==> t[i] in s
  {
    if Contains(s, t) {
      var k := IndexOf(s, t).value;
      forall i | 0 <= i < |t|
        ensures t[i] in s
      {
        assert s[k..k + |t|][i] == s[k + i];
      }
    }
  }

  /** A string that starts with the separator has an empty first part. */
  lemma SplitLeadingSep(s: string, sep: char)
    requires |s| >= 1 && s[0] == sep
    ensures Split(s, sep)[0] == ""
  {
    assert s == [] + [sep] + s[1..];
    SplitAppend([], s[1..], sep);
  }
}
