/** The order Python uses to compare `str` values: character by character on
    code points, a proper prefix coming first. `sorted` on a folder listing
    uses exactly this order. */
module Lexical {

  /** `a < b` on Python strings. */
  predicate Below(a: string, b: string)
  {
    if |a| == 0 then |b| > 0
    else |b| > 0 && (a[0] < b[0] || (a[0] == b[0] && Below(a[1..], b[1..])))
  }

  /** `a <= b` on Python strings. */
  predicate AtMost(a: string, b: string)
  {
    a == b || Below(a, b)
  }

  /** The textbook definition: `a` and `b` agree on their first `k`
      characters, and then either `a` stops while `b` goes on, or `a` has the
      smaller character at position `k`. */
  ghost predicate DiffersFirstAt(a: string, b: string, k: nat)
  {
    && k <= |a| && k <= |b|
    && a[..k] == b[..k]
    && ((k == |a| && k < |b|) || (k < |a| && k < |b| && a[k] < b[k]))
  }

  /** `Below` coincides with the textbook definition of lexicographic order. */
  lemma {:induction false} BelowIffDiffersFirst(a: string, b: string)
    ensures Below(a, b) <==> exists k: nat :: DiffersFirstAt(a, b, k)
  {
    if Below(a, b) {
      var k := BelowWitness(a, b);
    }
    if k: nat :| DiffersFirstAt(a, b, k) {
      DiffersFirstIsBelow(a, b, k);
    }
  }

  lemma {:induction false} BelowWitness(a: string, b: string) returns (k: nat)
    requires Below(a, b)
    ensures DiffersFirstAt(a, b, k)
  {
    if |a| == 0 || a[0] < b[0] {
      k := 0;
    } else {
      var k' := BelowWitness(a[1..], b[1..]);
      k := k' + 1;
      assert a[..k] == [a[0]] + a[1..][..k'];
      assert b[..k] == [b[0]] + b[1..][..k'];
    }
  }

  lemma {:induction false} DiffersFirstIsBelow(a: string, b: string, k: nat)
    requires DiffersFirstAt(a, b, k)
    ensures Below(a, b)
  {
    if k > 0 {
      assert a[0] == a[..k][0] == b[..k][0] == b[0];
      assert a[1..][..k - 1] == a[..k][1..] == b[..k][1..] == b[1..][..k - 1];
      DiffersFirstIsBelow(a[1..], b[1..], k - 1);
    }
  }

  lemma {:induction false} BelowIrreflexive(a: string)
    ensures !Below(a, a)
  {
    if |a| > 0 {
      BelowIrreflexive(a[1..]);
    }
  }

  lemma {:induction false} BelowAsymmetric(a: string, b: string)
    requires Below(a, b)
    ensures !Below(b, a)
  {
    if |a| > 0 && a[0] == b[0] {
      BelowAsymmetric(a[1..], b[1..]);
    }
  }

  lemma {:induction false} BelowTransitive(a: string, b: string, c: string)
    requires Below(a, b) && Below(b, c)
    ensures Below(a, c)
  {
    if |a| > 0 && a[0] == b[0] && b[0] == c[0] {
      BelowTransitive(a[1..], b[1..], c[1..]);
    }
  }

  /** Any two different strings are ordered one way or the other. */
  lemma {:induction false} BelowTotal(a: string, b: string)
    requires a != b
    ensures Below(a, b) || Below(b, a)
  {
    if |a| > 0 && |b| > 0 && a[0] == b[0] {
      assert a == [a[0]] + a[1..] && b == [b[0]] + b[1..];
      BelowTotal(a[1..], b[1..]);
    }
  }

  lemma AtMostTransitive(a: string, b: string, c: string)
    requires AtMost(a, b) && AtMost(b, c)
    ensures AtMost(a, c)
  {
    if a != b && b != c {
      BelowTransitive(a, b, c);
    }
  }

  lemma AtMostAntisymmetric(a: string, b: string)
    requires AtMost(a, b) && AtMost(b, a)
    ensures a == b
  {
    if a != b {
      BelowAsymmetric(a, b);
    }
  }

  /** Two strings of equal length that are already ordered stay ordered
      whatever is appended to each: the first difference decides. */
  lemma {:induction false} BelowExtend(a: string, b: string, x: string, y: string)
    requires |a| == |b| && Below(a, b)
    ensures Below(a + x, b + y)
  {
    assert (a + x)[0] == a[0] && (b + y)[0] == b[0];
    if a[0] == b[0] {
      assert (a + x)[1..] == a[1..] + x;
      assert (b + y)[1..] == b[1..] + y;
      BelowExtend(a[1..], b[1..], x, y);
    }
  }
}
