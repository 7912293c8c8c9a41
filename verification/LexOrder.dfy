/**
 * The order Rust gives strings. Comparing UTF-8 bytes agrees with comparing
 * Unicode scalar values, so clocks are strings compared character by character.
 */
module LexOrder {

  predicate Less(a: string, b: string) {
    if b == "" then false
    else if a == "" then true
    else if a[0] != b[0] then a[0] < b[0]
    else Less(a[1..], b[1..])
  }

  lemma {:induction false} Trichotomy(a: string, b: string)
    ensures !Less(a, a)
    ensures a == b || Less(a, b) || Less(b, a)
    ensures !(Less(a, b) && Less(b, a))
    decreases a
  {
    if a != "" {
      Trichotomy(a[1..], if b == "" then "" else b[1..]);
      if b != "" && a[1..] == b[1..] && a[0] == b[0] {
        assert a == [a[0]] + a[1..] == b;
      }
    }
  }

  lemma {:induction false} Transitive(a: string, b: string, c: string)
    requires Less(a, b) && Less(b, c)
    ensures Less(a, c)
    decreases a
  {
    if a != "" && a[0] == b[0] && b[0] == c[0] {
      Transitive(a[1..], b[1..], c[1..]);
    }
  }

  /** `Less` is a strict total order, in the form the other proofs use. */
  lemma TotalOrder()
    ensures forall a: string :: !Less(a, a)
    ensures forall a: string, b: string :: a == b || Less(a, b) || Less(b, a)
    ensures forall a: string, b: string :: Less(a, b) ==> !Less(b, a)
    ensures forall a: string, b: string, c: string :: Less(a, b) && Less(b, c) ==> Less(a, c)
  {
    forall a: string, b: string
      ensures !Less(a, a) && (a == b || Less(a, b) || Less(b, a)) && (Less(a, b) ==> !Less(b, a))
    {
      Trichotomy(a, b);
    }
    forall a: string, b: string, c: string | Less(a, b) && Less(b, c) ensures Less(a, c) {
      Transitive(a, b, c);
    }
  }

  /** Strings that start with equally long heads compare by the heads, then by the tails. */
  lemma {:induction false} LessOfConcat(p: string, u: string, q: string, v: string)
    requires |p| == |q|
    ensures Less(p + u, q + v) <==> Less(p, q) || (p == q && Less(u, v))
    decreases p
  {
    if p == "" {
      assert p + u == u && q + v == v;
    } else {
      assert (p + u)[1..] == p[1..] + u && (q + v)[1..] == q[1..] + v;
      LessOfConcat(p[1..], u, q[1..], v);
      assert p[0] == q[0] && p[1..] == q[1..] <==> p == q by {
        assert p == [p[0]] + p[1..] && q == [q[0]] + q[1..];
      }
    }
  }

  /** The greatest element of a non-empty finite set of strings. */
  function Greatest(s: set<string>): (m: string)
    requires s != {}
    ensures m in s && forall c | c in s :: c == m || Less(c, m)
  {
    TotalOrder();
    GreatestExists(s);
    var m :| m in s && forall c | c in s :: c == m || Less(c, m);
    m
  }

  lemma {:induction false} GreatestExists(s: set<string>)
    requires s != {}
    ensures exists m :: m in s && forall c | c in s :: c == m || Less(c, m)
    decreases |s|
  {
    TotalOrder();
    var x :| x in s;
    var rest := s - {x};
    if rest == {} {
      assert s == {x};
    } else {
      GreatestExists(rest);
      var m :| m in rest && forall c | c in rest :: c == m || Less(c, m);
      var top := if Less(m, x) then x else m;
      assert forall c | c in s :: c in rest || c == x;
      assert top in s && forall c | c in s :: c == top || Less(c, top);
    }
  }
}
