// Python's `<` on str: code point by code point, a proper prefix comes first.
module PyStrings {
  predicate Less(a: string, b: string) {
    if b == "" then false
    else if a == "" then true
    else if a[0] != b[0] then a[0] < b[0]
    else Less(a[1..], b[1..])
  }

  lemma {:induction false} LessIsAsymmetric(a: string, b: string)
    requires Less(a, b)
    ensures a != b && !Less(b, a)
  {
    if a != "" && a[0] == b[0] { LessIsAsymmetric(a[1..], b[1..]); }
  }

  lemma {:induction false} LessIsTransitive(a: string, b: string, c: string)
    requires Less(a, b) && Less(b, c)
    ensures Less(a, c)
  {
    if a != "" && a[0] == b[0] == c[0] { LessIsTransitive(a[1..], b[1..], c[1..]); }
  }

  lemma {:induction false} LessIsTotal(a: string, b: string)
    ensures Less(a, b) || a == b || Less(b, a)
  {
    if a != "" && b != "" && a[0] == b[0] {
      LessIsTotal(a[1..], b[1..]);
      assert a == [a[0]] + a[1..] && b == [b[0]] + b[1..];
    }
  }

  /** Equal-length prefixes are compared first; only a tie lets the rest decide. */
  lemma {:induction false} LessAfterPrefix(p: string, q: string, x: string, y: string)
    requires |p| == |q|
    ensures Less(p + x, q + y) <==> Less(p, q) || (p == q && Less(x, y))
  {
    if p == "" {
      assert p + x == x && q + y == y;
    } else {
      LessAfterPrefix(p[1..], q[1..], x, y);
      assert (p + x)[1..] == p[1..] + x && (q + y)[1..] == q[1..] + y;
      assert p == [p[0]] + p[1..] && q == [q[0]] + q[1..];
    }
  }

  /** a stands before b: it is a proper prefix, or has the smaller character where they first differ. */
  ghost predicate Before(a: string, b: string) {
    || (|a| < |b| && a == b[..|a|])
    || exists k :: 0 <= k < |a| && k < |b| && DifferFirst(a, b, k) && a[k] < b[k]
  }

  predicate DifferFirst(a: string, b: string, k: nat)
    requires k < |a| && k < |b|
  {
    a[..k] == b[..k] && a[k] != b[k]
  }

  lemma {:induction false} LessMeansBefore(a: string, b: string)
    ensures Less(a, b) <==> Before(a, b)
  {
    if a == "" {
      assert b != "" ==> a == b[..0];
    } else if b != "" {
      if a[0] != b[0] {
        assert DifferFirst(a, b, 0);
      } else {
        LessMeansBefore(a[1..], b[1..]);
        BeforeTail(a, b);
      }
    }
  }

  lemma BeforeTail(a: string, b: string)
    requires a != "" && b != "" && a[0] == b[0]
    ensures Before(a, b) <==> Before(a[1..], b[1..])
  {
    assert a == [a[0]] + a[1..] && b == [b[0]] + b[1..];
    if |a| < |b| { assert b[..|a|] == [b[0]] + b[1..][..|a| - 1]; }
    forall k | 0 < k < |a| && k < |b| ensures DifferFirst(a, b, k) <==> DifferFirst(a[1..], b[1..], k - 1) {
      assert a[..k] == [a[0]] + a[1..][..k - 1] && b[..k] == [b[0]] + b[1..][..k - 1];
    }
    if Before(a, b) && !(|a| < |b| && a == b[..|a|]) {
      var k :| 0 <= k < |a| && k < |b| && DifferFirst(a, b, k) && a[k] < b[k];
      assert DifferFirst(a[1..], b[1..], k - 1);
    }
    if Before(a[1..], b[1..]) && !(|a| < |b| && a[1..] == b[1..][..|a| - 1]) {
      var k :| 0 <= k < |a[1..]| && k < |b[1..]| && DifferFirst(a[1..], b[1..], k) && a[1..][k] < b[1..][k];
      assert DifferFirst(a, b, k + 1);
    }
  }
}
