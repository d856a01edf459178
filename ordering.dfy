/** The binary string order in which the store sorts dates and names, and
    the "newest first" listing that `sort({ date: -1 }).limit(n)` produces. */
module Ordering {
  import opened Common

  /** `a < b` on strings: code point by code point, a proper prefix first.
      YYYY-MM-DD dates compare chronologically under this order. */
  predicate Less(a: string, b: string)
    decreases |a|
  {
    if a == [] then b != []
    else if b == [] then false
    else if a[0] != b[0] then a[0] < b[0]
    else Less(a[1..], b[1..])
  }

  lemma {:induction false} LessIrreflexive(a: string)
    ensures !Less(a, a)
    decreases |a|
  {
    if a != [] {
      LessIrreflexive(a[1..]);
    }
  }

  lemma {:induction false} LessTransitive(a: string, b: string, c: string)
    requires Less(a, b) && Less(b, c)
    ensures Less(a, c)
    decreases |a|
  {
    if a != [] && b != [] && c != [] && a[0] == b[0] && b[0] == c[0] {
      LessTransitive(a[1..], b[1..], c[1..]);
    }
  }

  lemma {:induction false} LessTotal(a: string, b: string)
    requires a != b
    ensures Less(a, b) || Less(b, a)
    decreases |a|
  {
    if a != [] && b != [] && a[0] == b[0] {
      assert a == [a[0]] + a[1..] && b == [b[0]] + b[1..];
      LessTotal(a[1..], b[1..]);
    }
  }

  /** `d` is the greatest string of `s`. */
  predicate IsLatest(d: string, s: set<string>)
  {
    d in s && forall e :: e in s && e != d ==> Less(e, d)
  }

  lemma {:induction false} LatestExists(s: set<string>)
    requires s != {}
    ensures exists d :: IsLatest(d, s)
    decreases |s|
  {
    var x :| x in s;
    if s == {x} {
      assert IsLatest(x, s);
    } else {
      LatestExists(s - {x});
      var m :| IsLatest(m, s - {x});
      if Less(m, x) {
        forall e | e in s && e != x
          ensures Less(e, x)
        {
          if e != m {
            LessTransitive(e, m, x);
          }
        }
        assert IsLatest(x, s);
      } else {
        LessTotal(m, x);
        assert IsLatest(m, s);
      }
    }
  }

  ghost function Latest(s: set<string>): (d: string)
    requires s != {}
    ensures IsLatest(d, s)
  {
    LatestExists(s);
    var d :| IsLatest(d, s);
    d
  }

  lemma LatestUnique(d: string, s: set<string>)
    requires IsLatest(d, s)
    ensures d == Latest(s)
  {
    var l := Latest(s);
    if d != l {
      LessTransitive(d, l, d);
      LessIrreflexive(d);
    }
  }

  /** The strings of `s`, greatest first. */
  ghost function NewestFirstOf(s: set<string>): (ds: seq<string>)
    ensures |ds| == |s|
    decreases |s|
  {
    if s == {} then [] else [Latest(s)] + NewestFirstOf(s - {Latest(s)})
  }

  ghost predicate Descending(ds: seq<string>)
  {
    forall i, j :: 0 <= i < j < |ds| ==> Less(ds[j], ds[i])
  }

  /** Putting a string before a descending list of smaller strings keeps it descending. */
  lemma ConsDescending(d: string, ds: seq<string>)
    requires Descending(ds) && forall e :: e in ds ==> Less(e, d)
    ensures Descending([d] + ds)
  {
    var r := [d] + ds;
    forall i, j | 0 <= i < j < |r|
      ensures Less(r[j], r[i])
    {
      assert r[j] == ds[j - 1];
      if i > 0 {
        assert r[i] == ds[i - 1];
      }
    }
  }

  /** The newest-first listing holds every string of the set once, in strictly
      descending order. */
  lemma {:induction false} NewestFirstOfMeaning(s: set<string>)
    ensures |NewestFirstOf(s)| == |s|
    ensures Descending(NewestFirstOf(s))
    ensures forall d :: d in NewestFirstOf(s) <==> d in s
    decreases |s|
  {
    if s != {} {
      var l := Latest(s);
      var rest := s - {l};
      NewestFirstOfMeaning(rest);
      ConsDescending(l, NewestFirstOf(rest));
      assert NewestFirstOf(s) == [l] + NewestFirstOf(rest);
    }
  }

  lemma NewestFirstStep(ds: seq<string>, rest: set<string>, d: string)
    requires IsLatest(d, rest)
    ensures ds + NewestFirstOf(rest) == (ds + [d]) + NewestFirstOf(rest - {d})
    ensures |rest - {d}| < |rest|
  {
    LatestUnique(d, rest);
    var later := NewestFirstOf(rest - {d});
    assert NewestFirstOf(rest) == [d] + later;
    assert (ds + [d]) + later == ds + ([d] + later);
  }

  /** The `limit` greatest strings of `s`, greatest first: the dates a
      `sort({ date: -1 }).limit(limit)` query returns. */
  method NewestFirst(s: set<string>, limit: nat) returns (ds: seq<string>)
    ensures ds == NewestFirstOf(s)[..Min(limit, |s|)]
  {
    ds := [];
    var rest := s;
    while |ds| < limit && rest != {}
      invariant ds + NewestFirstOf(rest) == NewestFirstOf(s)
      invariant |ds| <= limit
      decreases |rest|
    {
      LatestExists(rest);
      var d :| IsLatest(d, rest);
      NewestFirstStep(ds, rest, d);
      ds := ds + [d];
      rest := rest - {d};
    }
    assert ds == (ds + NewestFirstOf(rest))[..|ds|];
  }
}
