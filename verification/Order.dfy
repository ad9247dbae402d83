/** The byte-wise order of Go strings and keys, and sorting by it. */
module Order {
  import opened Basics

  /** bytes.Compare(a, b) <= 0. */
  predicate Leq(a: seq<byte>, b: seq<byte>) {
    if a == [] then true
    else if b == [] then false
    else if a[0] != b[0] then a[0] < b[0]
    else Leq(a[1..], b[1..])
  }

  lemma {:induction false} LeqTotal(a: seq<byte>, b: seq<byte>)
    ensures Leq(a, b) || Leq(b, a)
    ensures Leq(a, b) && Leq(b, a) ==> a == b
  {
    if a != [] && b != [] && a[0] == b[0] {
      LeqTotal(a[1..], b[1..]);
      assert a == [a[0]] + a[1..] && b == [b[0]] + b[1..];
    }
  }

  lemma {:induction false} LeqTransitive(a: seq<byte>, b: seq<byte>, c: seq<byte>)
    requires Leq(a, b) && Leq(b, c)
    ensures Leq(a, c)
  {
    if a != [] && a[0] == b[0] == c[0] {
      LeqTransitive(a[1..], b[1..], c[1..]);
    }
  }

  ghost predicate SortedBy<T(!new)>(key: T -> seq<byte>, s: seq<T>) {
    forall i, j :: 0 <= i < j < |s| ==> Leq(key(s[i]), key(s[j]))
  }

  function Insert<T>(key: T -> seq<byte>, x: T, s: seq<T>): seq<T> {
    if s == [] || Leq(key(x), key(s[0])) then [x] + s
    else [s[0]] + Insert(key, x, s[1..])
  }

  lemma {:induction false} InsertSorts<T(!new)>(key: T -> seq<byte>, x: T, s: seq<T>)
    requires SortedBy(key, s)
    ensures multiset(Insert(key, x, s)) == multiset{x} + multiset(s)
    ensures SortedBy(key, Insert(key, x, s))
  {
    if s == [] {
    } else if Leq(key(x), key(s[0])) {
      forall j | 0 <= j < |s| ensures Leq(key(x), key(s[j])) {
        if j > 0 { LeqTransitive(key(x), key(s[0]), key(s[j])); }
      }
    } else {
      var r := Insert(key, x, s[1..]);
      InsertSorts(key, x, s[1..]);
      LeqTotal(key(x), key(s[0]));
      assert s == [s[0]] + s[1..];
      forall j | 0 <= j < |r| ensures Leq(key(s[0]), key(r[j])) {
        assert r[j] in multiset(r);
        if r[j] != x {
          assert r[j] in s[1..];
        }
      }
    }
  }

  /** The effect of sort.Slice with a byte-wise "less" on a key. */
  function Sort<T>(key: T -> seq<byte>, s: seq<T>): seq<T> {
    if s == [] then [] else Insert(key, s[0], Sort(key, s[1..]))
  }

  lemma {:induction false} SortSorts<T(!new)>(key: T -> seq<byte>, s: seq<T>)
    ensures multiset(Sort(key, s)) == multiset(s)
    ensures SortedBy(key, Sort(key, s))
  {
    if s != [] {
      SortSorts(key, s[1..]);
      InsertSorts(key, s[0], Sort(key, s[1..]));
      assert s == [s[0]] + s[1..];
    }
  }

  ghost predicate KeysDistinct<T(!new)>(key: T -> seq<byte>, s: seq<T>) {
    forall i, j :: 0 <= i < j < |s| ==> key(s[i]) != key(s[j])
  }

  /** Two sorted lists of the same elements start alike. */
  lemma SameFirst<T(!new)>(key: T -> seq<byte>, s: seq<T>, t: seq<T>)
    requires SortedBy(key, s) && SortedBy(key, t) && KeysDistinct(key, s)
    requires multiset(s) == multiset(t) && s != [] && t != []
    ensures s[0] == t[0]
  {
    assert s[0] in multiset(t) && t[0] in multiset(s);
    var i :| 0 <= i < |t| && t[i] == s[0];
    var j :| 0 <= j < |s| && s[j] == t[0];
    LeqTotal(key(s[0]), key(t[0]));
    LeqTotal(key(s[0]), key(s[0]));
    assert Leq(key(s[0]), key(t[0])) && Leq(key(t[0]), key(s[0]));
  }

  lemma Rest<T>(s: seq<T>)
    requires s != []
    ensures s == [s[0]] + s[1..] && multiset(s[1..]) == multiset(s) - multiset{s[0]}
  {
    assert s == [s[0]] + s[1..];
  }

  /** A list with distinct keys has one sorted arrangement: it depends on
      which elements it holds and not on their order, so an unstable sort
      gives the same list. */
  lemma {:induction false} SortedUnique<T(!new)>(key: T -> seq<byte>, s: seq<T>, t: seq<T>)
    requires SortedBy(key, s) && SortedBy(key, t)
    requires KeysDistinct(key, s)
    requires multiset(s) == multiset(t)
    ensures s == t
  {
    assert |s| == |multiset(s)| == |multiset(t)| == |t|;
    if s != [] {
      SameFirst(key, s, t);
      Rest(s);
      Rest(t);
      SortedUnique(key, s[1..], t[1..]);
    }
  }
}
