/** Shared vocabulary: optional values, 64-bit integers, and the byte-wise string order in which
    `std::map` and `std::set` iterate. */
module Base {

  datatype Option<+T> = None | Some(value: T)

  datatype Result<+T> = Ok(value: T) | Err(message: string)

  const TWO_64: int := 0x1_0000_0000_0000_0000

  /** `uint64_t`: arithmetic on it wraps and is written out where it can. */
  type u64 = x: int | 0 <= x < 0x1_0000_0000_0000_0000

  type Byte = bv8
  type Bytes = seq<Byte>
  type Digest = string

  function Lookup<K, V>(m: map<K, V>, k: K): Option<V> {
    if k in m then Some(m[k]) else None
  }

  lemma SameMap<K, V>(a: map<K, V>, b: map<K, V>)
    requires forall k :: Lookup(a, k) == Lookup(b, k)
    ensures a == b
  {
    assert forall k :: k in a ==> Lookup(a, k) == Some(a[k]);
    assert forall k :: k in b ==> Lookup(b, k) == Some(b[k]);
    assert a.Keys == b.Keys;
  }

  predicate Distinct<T(==)>(s: seq<T>) {
    forall k, l :: 0 <= k < l < |s| ==> s[k] != s[l]
  }

  lemma Regroup<T>(a: seq<T>, b: seq<T>, c: seq<T>)
    ensures (a + b) + c == a + (b + c) && a + [] == a
  {
  }

  /** `std::string` comparison: the first differing character decides, then the length. */
  predicate Less(a: string, b: string) {
    if b == "" then false
    else if a == "" then true
    else a[0] < b[0] || (a[0] == b[0] && Less(a[1..], b[1..]))
  }

  lemma LessTotal(a: string, b: string)
    ensures Less(a, b) || a == b || Less(b, a)
    ensures !(Less(a, b) && Less(b, a))
    ensures !Less(a, a)
  {
    if a != "" && b != "" {
      LessTotal(a[1..], b[1..]);
      if a[1..] == b[1..] && a[0] == b[0] {
        assert a == [a[0]] + a[1..] == b;
      }
      LessTotal(a[1..], a[1..]);
    }
  }

  lemma LessTransitive(a: string, b: string, c: string)
    requires Less(a, b) && Less(b, c)
    ensures Less(a, c)
  {
    if a != "" && b != "" && c != "" && a[0] == b[0] == c[0] {
      LessTransitive(a[1..], b[1..], c[1..]);
    }
  }

  /** A string is smaller if it is a beginning of the other, or smaller at the first place where they differ. */
  lemma {:induction false} LessMeans(a: string, b: string)
    ensures Less(a, b) <==>
      (|a| < |b| && b[..|a|] == a) || exists i :: 0 <= i < |a| && i < |b| && a[..i] == b[..i] && a[i] < b[i]
  {
    if a != "" && b != "" && a[0] == b[0] {
      var s, t := a[1..], b[1..];
      LessMeans(s, t);
      assert |a| < |b| ==> (b[..|a|] == a <==> t[..|s|] == s) by {
        if |a| < |b| {
          assert b[..|a|] == [b[0]] + t[..|s|] && a == [a[0]] + s;
          assert t[..|s|] == b[..|a|][1..];
        }
      }
      if i :| 0 <= i < |s| && i < |t| && s[..i] == t[..i] && s[i] < t[i] {
        assert a[..i + 1] == [a[0]] + s[..i] && b[..i + 1] == [b[0]] + t[..i] && a[i + 1] < b[i + 1];
      }
      if i :| 0 <= i < |a| && i < |b| && a[..i] == b[..i] && a[i] < b[i] {
        assert s[..i - 1] == a[..i][1..] && t[..i - 1] == b[..i][1..] && s[i - 1] < t[i - 1];
      }
    } else if a != "" && b != "" {
      forall i | 0 < i <= |a| && i <= |b|
        ensures a[..i] != b[..i]
      {
        assert a[..i][0] == a[0] && b[..i][0] == b[0];
      }
      assert a[..|a|] == a && a[..0] == b[..0];
    }
  }

  predicate StrictlySorted(s: seq<string>) {
    forall i, j :: 0 <= i < j < |s| ==> Less(s[i], s[j])
  }

  predicate IsLeast(x: string, s: set<string>) {
    x in s && forall y :: y in s && y != x ==> Less(x, y)
  }

  lemma LeastExists(s: set<string>)
    requires s != {}
    ensures exists x :: IsLeast(x, s)
  {
    var y :| y in s;
    if s == {y} {
      assert IsLeast(y, s);
    } else {
      LeastExists(s - {y});
      var x :| IsLeast(x, s - {y});
      LessTotal(x, y);
      if Less(x, y) {
        assert IsLeast(x, s);
      } else {
        forall z | z in s && z != y
          ensures Less(y, z)
        {
          if z != x {
            LessTransitive(y, x, z);
          }
        }
        assert IsLeast(y, s);
      }
    }
  }

  lemma LeastUnique(s: set<string>, x: string, y: string)
    requires IsLeast(x, s) && IsLeast(y, s)
    ensures x == y
  {
    LessTotal(x, y);
  }

  function Least(s: set<string>): (x: string)
    requires s != {}
    ensures IsLeast(x, s)
  {
    LeastExists(s);
    assert forall x, y :: IsLeast(x, s) && IsLeast(y, s) ==> x == y by {
      forall x, y | IsLeast(x, s) && IsLeast(y, s)
        ensures x == y
      {
        LeastUnique(s, x, y);
      }
    }
    var x :| x in s && IsLeast(x, s);
    x
  }

  /** There is only one ascending list of given strings. */
  lemma {:induction false} SortedOnce(a: seq<string>, b: seq<string>)
    requires StrictlySorted(a) && StrictlySorted(b) && forall x :: x in a <==> x in b
    ensures a == b
  {
    HasFirst(a);
    HasFirst(b);
    if a != [] && b != [] {
      assert a[0] in b && b[0] in a;
      LessTotal(a[0], b[0]);
      var rest, later := a[1..], b[1..];
      forall x
        ensures x in rest <==> x in later
      {
        Later(a, x);
        Later(b, x);
      }
      SortedOnce(rest, later);
      assert a == [a[0]] + rest && b == [b[0]] + later;
    }
  }

  lemma HasFirst(s: seq<string>)
    ensures s == [] || s[0] in s
  {
  }

  lemma Later(a: seq<string>, x: string)
    requires StrictlySorted(a) && a != []
    ensures x in a[1..] <==> x in a && x != a[0]
  {
    LessTotal(a[0], a[0]);
  }

  /** The keys of a `std::map` or `std::set` in iteration order. */
  function Sorted(s: set<string>): (r: seq<string>)
    ensures forall x :: x in r <==> x in s
    ensures StrictlySorted(r)
    ensures |r| == |s|
    ensures forall i, j :: 0 <= i < j < |r| ==> r[i] != r[j]
    decreases |s|
  {
    if s == {} then []
    else
      var x := Least(s);
      var rest := Sorted(s - {x});
      assert forall i, j :: 0 <= i < j < |[x] + rest| ==> Less(([x] + rest)[i], ([x] + rest)[j]) by {
        forall i, j | 0 <= i < j < |[x] + rest|
          ensures Less(([x] + rest)[i], ([x] + rest)[j])
        {
          assert rest[j - 1] in rest;
        }
      }
      [x] + rest
  }
}
