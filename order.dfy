/**
 * Python's orderings: `str` comparison (code point by code point, a proper
 * prefix first) and the stable `sorted`/`list.sort` driven by a comparison.
 */
module Order {
  import opened Seqs

  /** `a <= b` on Python strings. */
  predicate StrLe(a: string, b: string) {
    if a == [] then true
    else if b == [] then false
    else if a[0] != b[0] then a[0] < b[0]
    else StrLe(a[1..], b[1..])
  }

  /** `a < b` on Python strings. */
  predicate StrLt(a: string, b: string) {
    StrLe(a, b) && a != b
  }

  lemma {:induction false} StrLeTotal(a: string, b: string)
    ensures StrLe(a, b) || StrLe(b, a)
  {
    if a != [] && b != [] && a[0] == b[0] {
      StrLeTotal(a[1..], b[1..]);
    }
  }

  lemma {:induction false} StrLeAntisymmetric(a: string, b: string)
    requires StrLe(a, b) && StrLe(b, a)
    ensures a == b
  {
    if a != [] && b != [] {
      StrLeAntisymmetric(a[1..], b[1..]);
      assert a == [a[0]] + a[1..];
      assert b == [b[0]] + b[1..];
    }
  }

  lemma {:induction false} StrLeTransitive(a: string, b: string, c: string)
    requires StrLe(a, b) && StrLe(b, c)
    ensures StrLe(a, c)
  {
    if a != [] && b != [] && c != [] && a[0] == b[0] == c[0] {
      StrLeTransitive(a[1..], b[1..], c[1..]);
    }
  }

  /** `le` is total and transitive, as every key order `sorted` accepts is. */
  ghost predicate TotalPreorder<T(!new)>(le: (T, T) -> bool) {
    && (forall a, b :: le(a, b) || le(b, a))
    && (forall a, b, c :: le(a, b) && le(b, c) ==> le(a, c))
  }

  /** Ascending in every pair, not only neighbours. */
  predicate Sorted<T>(s: seq<T>, le: (T, T) -> bool) {
    forall i, j :: 0 <= i < j < |s| ==> le(s[i], s[j])
  }

  /** The elements of `s` that `le` cannot tell apart from `v`, in `s`'s order. */
  function Ties<T>(s: seq<T>, v: T, le: (T, T) -> bool): seq<T> {
    if s == [] then []
    else (if le(s[0], v) && le(v, s[0]) then [s[0]] else []) + Ties(s[1..], v, le)
  }

  /** `x` goes in front of the first element it does not sort after. */
  function Insert<T>(x: T, s: seq<T>, le: (T, T) -> bool): (r: seq<T>)
    ensures multiset(r) == multiset(s) + multiset{x}
  {
    if s == [] then [x]
    else if le(x, s[0]) then [x] + s
    else
      assert s == [s[0]] + s[1..];
      [s[0]] + Insert(x, s[1..], le)
  }

  /** A stable sort: equal keys keep the order they arrived in, as in Python. */
  function Sort<T>(s: seq<T>, le: (T, T) -> bool): (r: seq<T>)
    ensures multiset(r) == multiset(s)
  {
    if s == [] then []
    else
      assert s == [s[0]] + s[1..];
      Insert(s[0], Sort(s[1..], le), le)
  }

  /** A head no greater than anything after it extends a sorted sequence. */
  lemma SortedCons<T>(h: T, r: seq<T>, le: (T, T) -> bool)
    requires Sorted(r, le)
    requires forall y :: y in r ==> le(h, y)
    ensures Sorted([h] + r, le)
  {
    var rr := [h] + r;
    forall i, j | 0 <= i < j < |rr| ensures le(rr[i], rr[j]) {
      assert rr[j] == r[j - 1];
      if i == 0 {
        assert r[j - 1] in r;
      } else {
        assert rr[i] == r[i - 1];
      }
    }
  }

  lemma {:induction false} InsertSorted<T(!new)>(x: T, s: seq<T>, le: (T, T) -> bool)
    requires TotalPreorder(le) && Sorted(s, le)
    ensures Sorted(Insert(x, s, le), le)
  {
    if s != [] && !le(x, s[0]) {
      var t := s[1..];
      InsertSorted(x, t, le);
      var r := Insert(x, t, le);
      assert le(s[0], x);
      forall y | y in r ensures le(s[0], y) {
        assert y in multiset(r);
        if y != x {
          assert y in multiset(t);
          var j :| 0 <= j < |t| && t[j] == y;
          assert s[j + 1] == y;
        }
      }
      SortedCons(s[0], r, le);
    }
  }

  lemma {:induction false} SortSorted<T(!new)>(s: seq<T>, le: (T, T) -> bool)
    requires TotalPreorder(le)
    ensures Sorted(Sort(s, le), le)
  {
    if s != [] {
      SortSorted(s[1..], le);
      InsertSorted(s[0], Sort(s[1..], le), le);
    }
  }

  lemma {:induction false} TiesConcat<T>(a: seq<T>, b: seq<T>, v: T, le: (T, T) -> bool)
    ensures Ties(a + b, v, le) == Ties(a, v, le) + Ties(b, v, le)
  {
    if a != [] {
      assert (a + b)[1..] == a[1..] + b;
      TiesConcat(a[1..], b, v, le);
    } else {
      assert a + b == b;
    }
  }

  lemma TiesSingle<T>(y: T, v: T, le: (T, T) -> bool)
    ensures Ties([y], v, le) == if le(y, v) && le(v, y) then [y] else []
  {
    assert [y][1..] == [];
  }

  /** Two runs of which one is empty may be swapped. */
  lemma SwapEmpty<T>(a: seq<T>, b: seq<T>, c: seq<T>)
    requires a == [] || b == []
    ensures a + (b + c) == b + (a + c)
  {
    if a == [] {
      assert a + (b + c) == b + c == b + (a + c);
    } else {
      assert a + (b + c) == a + c == b + (a + c);
    }
  }

  /** Elements `le` puts strictly apart cannot both tie with `v`. */
  lemma TiesApart<T(!new)>(x: T, y: T, v: T, le: (T, T) -> bool)
    requires TotalPreorder(le) && !le(x, y)
    ensures Ties([x], v, le) == [] || Ties([y], v, le) == []
  {
    TiesSingle(x, v, le);
    TiesSingle(y, v, le);
  }

  lemma {:induction false} InsertTies<T(!new)>(x: T, s: seq<T>, v: T, le: (T, T) -> bool)
    requires TotalPreorder(le)
    ensures Ties(Insert(x, s, le), v, le) == Ties([x] + s, v, le)
  {
    if s != [] && !le(x, s[0]) {
      var t := s[1..];
      var a := Ties([s[0]], v, le);
      var b := Ties([x], v, le);
      calc {
        Ties(Insert(x, s, le), v, le);
        { TiesConcat([s[0]], Insert(x, t, le), v, le); }
        a + Ties(Insert(x, t, le), v, le);
        { InsertTies(x, t, v, le); TiesConcat([x], t, v, le); }
        a + (b + Ties(t, v, le));
        { TiesApart(x, s[0], v, le); SwapEmpty(a, b, Ties(t, v, le)); }
        b + (a + Ties(t, v, le));
        { TiesConcat([s[0]], t, v, le); assert s == [s[0]] + t; }
        b + Ties(s, v, le);
        { TiesConcat([x], s, v, le); }
        Ties([x] + s, v, le);
      }
    }
  }

  /** The sort keeps every group of ties in arrival order. */
  lemma {:induction false} SortStable<T(!new)>(s: seq<T>, v: T, le: (T, T) -> bool)
    requires TotalPreorder(le)
    ensures Ties(Sort(s, le), v, le) == Ties(s, v, le)
  {
    if s != [] {
      var t := s[1..];
      calc {
        Ties(Sort(s, le), v, le);
        Ties(Insert(s[0], Sort(t, le), le), v, le);
        { InsertTies(s[0], Sort(t, le), v, le); }
        Ties([s[0]] + Sort(t, le), v, le);
        { TiesConcat([s[0]], Sort(t, le), v, le); }
        Ties([s[0]], v, le) + Ties(Sort(t, le), v, le);
        { SortStable(t, v, le); }
        Ties([s[0]], v, le) + Ties(t, v, le);
        { TiesConcat([s[0]], t, v, le); assert s == [s[0]] + t; }
        Ties(s, v, le);
      }
    }
  }
}
