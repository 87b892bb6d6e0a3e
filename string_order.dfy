/** The order Rust's `BTreeMap<String, _>` iterates its keys in: strings
    compared lexicographically, a proper prefix before its extensions. Rust
    compares the UTF-8 bytes, which orders the same way as comparing code
    points, so the model compares `char`s. */
module StringOrder {

  predicate LessEq(a: string, b: string)
    decreases |a|
  {
    |a| == 0 || (|b| > 0 && (a[0] < b[0] || (a[0] == b[0] && LessEq(a[1..], b[1..]))))
  }

  predicate Less(a: string, b: string) {
    LessEq(a, b) && a != b
  }

  /** Every element of `r` strictly below every later one: the keys of a
      `BTreeMap` in iteration order. */
  ghost predicate StrictlyAscending(r: seq<string>) {
    forall i, j :: 0 <= i < j < |r| ==> Less(r[i], r[j])
  }

  lemma {:induction false} Antisymmetric(a: string, b: string)
    requires LessEq(a, b) && LessEq(b, a)
    ensures a == b
    decreases |a|
  {
    if |a| > 0 {
      Antisymmetric(a[1..], b[1..]);
      assert a == [a[0]] + a[1..] && b == [b[0]] + b[1..];
    }
  }

  lemma AntisymmetricAll()
    ensures forall a, b :: LessEq(a, b) && LessEq(b, a) ==> a == b
  {
    forall a, b | LessEq(a, b) && LessEq(b, a) ensures a == b {
      Antisymmetric(a, b);
    }
  }

  lemma {:induction false} Transitive(a: string, b: string, c: string)
    requires LessEq(a, b) && LessEq(b, c)
    ensures LessEq(a, c)
    decreases |a|
  {
    if |a| > 0 && a[0] == b[0] && b[0] == c[0] {
      Transitive(a[1..], b[1..], c[1..]);
    }
  }

  lemma {:induction false} Total(a: string, b: string)
    ensures LessEq(a, b) || LessEq(b, a)
    decreases |a|
  {
    if |a| > 0 && |b| > 0 && a[0] == b[0] {
      Total(a[1..], b[1..]);
    }
  }

  lemma {:induction false} LeastExists(s: set<string>)
    requires s != {}
    ensures exists m :: m in s && forall k :: k in s ==> LessEq(m, k)
    decreases |s|
  {
    var x :| x in s;
    if s == {x} {
      assert LessEq(x, x) by { Total(x, x); }
    } else {
      LeastExists(s - {x});
      var m :| m in s - {x} && forall k :: k in s - {x} ==> LessEq(m, k);
      Total(m, x);
      if LessEq(m, x) {
        assert forall k :: k in s ==> LessEq(m, k);
      } else {
        forall k | k in s ensures LessEq(x, k) {
          if k != x { Transitive(x, m, k); } else { Total(x, x); }
        }
      }
    }
  }

  /** The smallest string of a non-empty set. */
  function Least(s: set<string>): (m: string)
    requires s != {}
    ensures m in s && forall k :: k in s ==> LessEq(m, k)
  {
    LeastExists(s);
    AntisymmetricAll();
    var m :| m in s && forall k :: k in s ==> LessEq(m, k);
    m
  }

  /** The keys of a `BTreeMap` in the order its iterators visit them. */
  function SortedKeys(s: set<string>): (r: seq<string>)
    ensures |r| == |s|
    ensures forall k :: k in r <==> k in s
    ensures StrictlyAscending(r)
    decreases |s|
  {
    if s == {} then []
    else
      var m := Least(s);
      var rest := SortedKeys(s - {m});
      assert forall j :: 0 <= j < |rest| ==> Less(m, rest[j]) by {
        forall j | 0 <= j < |rest| ensures Less(m, rest[j]) {
          assert rest[j] in rest;
        }
      }
      [m] + rest
  }
}
