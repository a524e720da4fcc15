/** Python `str` values: sequences of code points, surrogates included, ordered by code point. */
module PyText {

  type CodePoint = c: int | 0 <= c < 0x110000

  type Str = seq<CodePoint>

  /** The Python string spelled by an ASCII or Unicode literal. */
  function Py(s: string): (r: Str)
    ensures |r| == |s|
    ensures forall i :: 0 <= i < |s| ==> r[i] == s[i] as int
  {
    seq(|s|, i requires 0 <= i < |s| => s[i] as int)
  }

  lemma PyInjective(a: string, b: string)
    ensures Py(a) == Py(b) <==> a == b
  {
    if Py(a) == Py(b) {
      forall i | 0 <= i < |a| ensures a[i] == b[i] {
        assert Py(a)[i] == Py(b)[i];
      }
    }
  }

  /** `a < b` on Python strings: lexicographic by code point. */
  predicate Less(a: Str, b: Str) {
    b != [] && (a == [] || a[0] < b[0] || (a[0] == b[0] && Less(a[1..], b[1..])))
  }

  lemma {:induction false} LessTotal(a: Str, b: Str)
    ensures Less(a, b) || a == b || Less(b, a)
    ensures !(Less(a, b) && Less(b, a))
    ensures !Less(a, a)
  {
    if a != [] {
      LessTotal(a[1..], a[1..]);
    }
    if a != [] && b != [] && a[0] == b[0] {
      LessTotal(a[1..], b[1..]);
      assert a == [a[0]] + a[1..] && b == [b[0]] + b[1..];
    }
  }

  lemma {:induction false} LessTransitive(a: Str, b: Str, c: Str)
    requires Less(a, b) && Less(b, c)
    ensures Less(a, c)
  {
    if a != [] && a[0] == b[0] && b[0] == c[0] {
      LessTransitive(a[1..], b[1..], c[1..]);
    }
  }

  ghost predicate Ascending(keys: seq<Str>) {
    forall i, j :: 0 <= i < j < |keys| ==> Less(keys[i], keys[j])
  }

  predicate IsLeast(m: Str, s: set<Str>) {
    m in s && forall k :: k in s && k != m ==> Less(m, k)
  }

  lemma {:induction false} LeastExists(s: set<Str>)
    requires s != {}
    ensures exists m :: IsLeast(m, s)
  {
    var x :| x in s;
    var rest := s - {x};
    if rest == {} {
      assert s == {x} + rest;
      assert IsLeast(x, s);
    } else {
      LeastExists(rest);
      var m :| IsLeast(m, rest);
      LessTotal(x, m);
      if Less(x, m) {
        forall k | k in s && k != x ensures Less(x, k) {
          if k != m {
            LessTransitive(x, m, k);
          }
        }
        assert IsLeast(x, s);
      } else {
        assert IsLeast(m, s);
      }
    }
  }

  lemma LeastUnique(s: set<Str>)
    ensures forall m, n :: IsLeast(m, s) && IsLeast(n, s) ==> m == n
  {
    forall m, n | IsLeast(m, s) && IsLeast(n, s) ensures m == n {
      LessTotal(m, n);
    }
  }

  lemma ConsAscending(m: Str, rest: seq<Str>, s: set<Str>)
    requires IsLeast(m, s) && Ascending(rest) && forall k :: k in rest <==> k in s - {m}
    ensures Ascending([m] + rest) && forall k :: k in [m] + rest <==> k in s
  {
    var r := [m] + rest;
    forall i, j | 0 <= i < j < |r| ensures Less(r[i], r[j]) {
      assert r[j] in rest;
    }
  }

  /** The keys of a dictionary in the order `sort_keys=True` emits them. */
  function SortedKeys(s: set<Str>): (r: seq<Str>)
    ensures forall k :: k in r <==> k in s
    ensures |r| == |s|
    ensures Ascending(r)
    decreases |s|
  {
    if s == {} then [] else
      LeastExists(s);
      LeastUnique(s);
      var m :| IsLeast(m, s);
      var rest := SortedKeys(s - {m});
      ConsAscending(m, rest, s);
      [m] + rest
  }

  /** An ascending enumeration of a key set is the only one. */
  lemma {:induction false} AscendingUnique(a: seq<Str>, b: seq<Str>)
    requires Ascending(a) && Ascending(b)
    requires |a| == |b| && forall k :: k in a <==> k in b
    ensures a == b
  {
    if a != [] {
      assert a[0] in b;
      var i :| 0 <= i < |b| && b[i] == a[0];
      assert b[0] in a;
      var j :| 0 <= j < |a| && a[j] == b[0];
      LessTotal(a[0], b[0]);
      assert a[0] == b[0];
      forall k ensures k in a[1..] <==> k in b[1..] {
        LessTotal(a[0], a[0]);
        if k in a[1..] {
          var p :| 1 <= p < |a| && a[p] == k;
          assert k in b;
          var q :| 0 <= q < |b| && b[q] == k;
          assert Less(a[0], a[p]);
          assert q != 0;
          assert b[1..][q-1] == k;
        }
        if k in b[1..] {
          var p :| 1 <= p < |b| && b[p] == k;
          assert k in a;
          var q :| 0 <= q < |a| && a[q] == k;
          assert Less(b[0], b[p]);
          assert q != 0;
          assert a[1..][q-1] == k;
        }
      }
      AscendingUnique(a[1..], b[1..]);
      assert a == [a[0]] + a[1..] && b == [b[0]] + b[1..];
    }
  }
}
