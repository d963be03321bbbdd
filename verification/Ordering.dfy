/** Total orders, and the sorted lists of finite sets. */
module Ordering {

  ghost predicate TotalOrder<T(!new)>(le: (T, T) -> bool) {
    && (forall a, b :: le(a, b) || le(b, a))
    && (forall a, b :: le(a, b) && le(b, a) ==> a == b)
    && (forall a, b, c :: le(a, b) && le(b, c) ==> le(a, c))
  }

  ghost predicate Ascending<T(!new)>(s: seq<T>, le: (T, T) -> bool) {
    && (forall i, j :: 0 <= i < j < |s| ==> le(s[i], s[j]))
    && (forall i, j :: 0 <= i < j < |s| ==> s[i] != s[j])
  }

  ghost predicate IsLeast<T(!new)>(s: set<T>, le: (T, T) -> bool, m: T) {
    m in s && forall x <- s :: le(m, x)
  }

  lemma {:induction false} LeastExists<T(!new)>(s: set<T>, le: (T, T) -> bool)
    requires TotalOrder(le) && s != {}
    ensures exists m :: IsLeast(s, le, m)
  {
    var x :| x in s;
    if s == {x} {
      assert IsLeast(s, le, x);
    } else {
      var rest := s - {x};
      LeastExists(rest, le);
      var m :| IsLeast(rest, le, m);
      assert IsLeast(s, le, if le(m, x) then m else x);
    }
  }

  /** The elements of a finite set in ascending order: what sorting and removing duplicates gives. */
  function Sorted<T(==, !new)>(s: set<T>, le: (T, T) -> bool): (r: seq<T>)
    requires TotalOrder(le)
    ensures (forall x :: x in r <==> x in s) && Ascending(r, le)
  {
    if s == {} then [] else
    LeastExists(s, le);
    var m :| m in s && forall x <- s :: le(m, x);
    var rest := Sorted(s - {m}, le);
    assert forall i | 0 <= i < |rest| :: rest[i] in s - {m};
    [m] + rest
  }

  /** The order of strings. */
  predicate StringLe(a: string, b: string) {
    a == [] || (b != [] && (a[0] < b[0] || (a[0] == b[0] && StringLe(a[1..], b[1..]))))
  }

  lemma {:induction false} StringLeTotal(a: string, b: string)
    ensures StringLe(a, b) || StringLe(b, a)
    ensures StringLe(a, b) && StringLe(b, a) ==> a == b
  {
    if a != [] && b != [] && a[0] == b[0] {
      StringLeTotal(a[1..], b[1..]);
      assert a == [a[0]] + a[1..] && b == [b[0]] + b[1..];
    }
  }

  lemma {:induction false} StringLeTransitive(a: string, b: string, c: string)
    requires StringLe(a, b) && StringLe(b, c)
    ensures StringLe(a, c)
  {
    if a != [] && a[0] == b[0] && b[0] == c[0] {
      StringLeTransitive(a[1..], b[1..], c[1..]);
    }
  }

  lemma StringsAreOrdered()
    ensures TotalOrder(StringLe)
  {
    forall a, b ensures (StringLe(a, b) || StringLe(b, a)) && (StringLe(a, b) && StringLe(b, a) ==> a == b) {
      StringLeTotal(a, b);
    }
    forall a, b, c | StringLe(a, b) && StringLe(b, c) ensures StringLe(a, c) {
      StringLeTransitive(a, b, c);
    }
  }
}
