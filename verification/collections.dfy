/** Small facts about sequences and sets shared by the models. */
module Collections {

  datatype Option<+T> = None | Some(value: T)

  /** Some element of a non-empty set; nothing is said about which. */
  method Pick<T>(s: set<T>) returns (x: T)
    requires s != {}
    ensures x in s
  {
    x :| x in s;
  }

  function Min(a: nat, b: nat): nat {
    if a <= b then a else b
  }

  /** The longest prefix of at most `n` characters. */
  function Truncate(s: string, n: nat): (r: string)
    ensures r <= s && |r| == Min(n, |s|)
  {
    if |s| <= n then s else s[..n]
  }

  ghost predicate Distinct<T(!new)>(s: seq<T>) {
    forall i, j :: 0 <= i < j < |s| ==> s[i] != s[j]
  }

  function Elements<T>(s: seq<T>): set<T> {
    set x | x in s
  }

  lemma {:induction false} DistinctCardinality<T(!new)>(s: seq<T>)
    requires Distinct(s)
    ensures |Elements(s)| == |s|
  {
    if s == [] {
      assert Elements(s) == {};
    } else {
      var last := |s| - 1;
      DistinctCardinality(s[..last]);
      assert Elements(s) == Elements(s[..last]) + {s[last]};
    }
  }

  lemma {:induction false} DistinctIffCardinality<T(!new)>(s: seq<T>)
    ensures |Elements(s)| <= |s|
    ensures |Elements(s)| == |s| <==> Distinct(s)
  {
    if s == [] {
      assert Elements(s) == {};
    } else {
      var n := |s| - 1;
      DistinctIffCardinality(s[..n]);
      assert s == s[..n] + [s[n]];
      DistinctNext(s[..n], s[n]);
      hide Distinct;
      assert Elements(s) == Elements(s[..n]) + {s[n]};
      assert s[n] in s[..n] ==> Elements(s) == Elements(s[..n]);
    }
  }

  lemma DistinctNext<T(!new)>(s: seq<T>, x: T)
    ensures Distinct(s + [x]) <==> Distinct(s) && x !in s
  {
    var t := s + [x];
    if Distinct(t) {
      forall i, j | 0 <= i < j < |s| ensures s[i] != s[j] {
        assert t[i] != t[j];
      }
      forall i | 0 <= i < |s| ensures s[i] != x {
        assert t[i] != t[|s|];
      }
    }
  }

  lemma DistinctAppend<T(!new)>(a: seq<T>, b: seq<T>)
    requires Distinct(a) && Distinct(b)
    requires forall x :: x in b ==> x !in a
    ensures Distinct(a + b)
  {
    forall i, j | 0 <= i < j < |a + b| ensures (a + b)[i] != (a + b)[j] {
      if i < |a| <= j {
        assert a[i] in a && b[j - |a|] in b;
      }
    }
  }

  lemma PrefixGrows<T>(s: seq<T>, i: nat)
    requires i < |s|
    ensures s[..i + 1] == s[..i] + [s[i]]
  {
  }

  lemma SubsetCardinality<T>(a: set<T>, b: set<T>)
    requires a <= b
    ensures |a| <= |b|
    ensures |a| == |b| ==> a == b
  {
    assert b == a + (b - a);
    assert |b| == |a| + |b - a|;
  }

  lemma {:induction false} LeastExists(s: set<int>)
    requires s != {}
    ensures exists m :: m in s && forall x :: x in s ==> m <= x
    decreases |s|
  {
    var x: int :| x in s;
    if exists z :: z in s && z < x {
      var smaller := set y | y in s && y < x;
      var z :| z in s && z < x;
      assert z in smaller;
      SubsetCardinality(smaller, s - {x});
      LeastExists(smaller);
      var m :| m in smaller && forall y :: y in smaller ==> m <= y;
      forall y | y in s ensures m <= y {
        if y < x {
          assert y in smaller;
        }
      }
    } else {
      assert forall y :: y in s ==> x <= y;
    }
  }

  /** The least element of a non-empty set of times. */
  function Least(s: set<int>): (m: int)
    requires s != {}
    ensures m in s && forall x :: x in s ==> m <= x
  {
    LeastExists(s);
    var m :| m in s && forall x :: x in s ==> m <= x;
    m
  }

  /** What `ORDER BY time LIMIT limit` may return over the rows whose times are given: the database
      is free to order rows with equal times as it likes. */
  ghost predicate OldestFirst<T(!new)>(times: map<T, int>, limit: nat, picked: seq<T>) {
    && Distinct(picked)
    && |picked| == Min(limit, |times|)
    && (forall x :: x in picked ==> x in times)
    && (forall i, j :: 0 <= i < j < |picked| ==> times[picked[i]] <= times[picked[j]])
    && (forall x, y :: x in picked && y in times && y !in picked ==> times[x] <= times[y])
  }

  lemma OldestExists<T>(times: map<T, int>)
    requires times.Keys != {}
    ensures exists x :: x in times && forall y :: y in times ==> times[x] <= times[y]
  {
    var some :| some in times;
    assert times[some] in times.Values;
    var least := Least(times.Values);
    var x :| x in times && times[x] == least;
    forall y | y in times ensures least <= times[y] {
      assert times[y] in times.Values;
    }
  }

  /** The ordered, bounded query every claim starts with. */
  method SelectOldest<T(==,!new)>(times: map<T, int>, limit: nat) returns (picked: seq<T>)
    ensures OldestFirst(times, limit, picked)
  {
    picked := [];
    var rest := times;
    while |picked| < limit && rest.Keys != {}
      invariant |picked| <= limit && |picked| + |rest| == |times|
      invariant Distinct(picked)
      invariant forall x :: x in rest ==> x in times && rest[x] == times[x]
      invariant forall x :: x in times <==> x in rest || x in picked
      invariant forall x :: x in picked ==> x !in rest
      invariant forall i, j :: 0 <= i < j < |picked| ==> times[picked[i]] <= times[picked[j]]
      invariant forall x, y :: x in picked && y in rest ==> times[x] <= times[y]
      decreases |rest|
    {
      OldestExists(rest);
      var x :| x in rest && forall y :: y in rest ==> rest[x] <= rest[y];
      picked := picked + [x];
      assert rest.Keys == (rest - {x}).Keys + {x};
      rest := rest - {x};
    }
  }

  lemma PickedSet<T(!new)>(times: map<T, int>, limit: nat, picked: seq<T>)
    requires OldestFirst(times, limit, picked)
    ensures |Elements(picked)| == Min(limit, |times|) && Elements(picked) <= times.Keys
    ensures forall x, y :: x in Elements(picked) && y in times && y !in Elements(picked) ==> times[x] <= times[y]
  {
    DistinctCardinality(picked);
  }

  /** Asked for at least one row of a non-empty table, the query returns an oldest row first. */
  lemma FirstIsOldest<T(!new)>(times: map<T, int>, limit: nat, picked: seq<T>)
    requires OldestFirst(times, limit, picked) && limit >= 1 && times.Keys != {}
    ensures |picked| >= 1 && picked[0] in times && forall y :: y in times ==> times[picked[0]] <= times[y]
  {
    assert |times.Keys| > 0;
    forall y | y in times ensures times[picked[0]] <= times[y] {
      if y in picked {
        var i :| 0 <= i < |picked| && picked[i] == y;
      }
    }
  }

  /** How many positions of `s` satisfy `p`. */
  function CountIf<T>(s: seq<T>, p: T -> bool): nat {
    if s == [] then 0 else (if p(s[0]) then 1 else 0) + CountIf(s[1..], p)
  }

  lemma {:induction false} CountIfAppend<T>(a: seq<T>, b: seq<T>, p: T -> bool)
    ensures CountIf(a + b, p) == CountIf(a, p) + CountIf(b, p)
  {
    if a == [] {
      assert a + b == b;
    } else {
      assert (a + b)[1..] == a[1..] + b;
      CountIfAppend(a[1..], b, p);
    }
  }

  lemma CountIfUpdate<T>(s: seq<T>, i: nat, x: T, p: T -> bool)
    requires i < |s|
    ensures CountIf(s[i := x], p) + (if p(s[i]) then 1 else 0) == CountIf(s, p) + (if p(x) then 1 else 0)
  {
    assert s == s[..i] + ([s[i]] + s[i + 1..]) && s[i := x] == s[..i] + ([x] + s[i + 1..]);
    CountIfAppend(s[..i], [s[i]] + s[i + 1..], p);
    CountIfAppend(s[..i], [x] + s[i + 1..], p);
    CountIfAppend([s[i]], s[i + 1..], p);
    CountIfAppend([x], s[i + 1..], p);
  }
}
