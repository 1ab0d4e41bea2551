/** The order in which strings compare by code units, used wherever keys are sorted or resumed. */
module CodeUnits {

  predicate Less(a: string, b: string) {
    b != [] && (a == [] || a[0] < b[0] || (a[0] == b[0] && Less(a[1..], b[1..])))
  }

  lemma {:induction false} LessIrreflexive(a: string)
    ensures !Less(a, a)
  {
    if a != [] {
      LessIrreflexive(a[1..]);
    }
  }

  lemma {:induction false} LessTransitive(a: string, b: string, c: string)
    requires Less(a, b) && Less(b, c)
    ensures Less(a, c)
  {
    if a != [] && a[0] == b[0] == c[0] {
      LessTransitive(a[1..], b[1..], c[1..]);
    }
  }

  lemma {:induction false} LessTotal(a: string, b: string)
    ensures a == b || Less(a, b) || Less(b, a)
  {
    if a != [] && b != [] && a[0] == b[0] {
      LessTotal(a[1..], b[1..]);
      assert a == [a[0]] + a[1..] && b == [b[0]] + b[1..];
    }
  }

  lemma LessAsymmetric(a: string, b: string)
    requires Less(a, b)
    ensures !Less(b, a)
  {
    if Less(b, a) {
      LessTransitive(a, b, a);
      LessIrreflexive(a);
    }
  }

  /** A text joined from two parts with a separator. */
  function Join(first: string, separator: char, second: string): string {
    first + [separator] + second
  }

  /**
    Comparing joined texts is comparing their parts, one after the other, as long as the separator
    sorts below every character of the first parts.
   */
  lemma {:induction false} JoinedOrder(a: string, i: string, b: string, j: string, separator: char)
    requires (forall c :: c in a ==> separator < c) && (forall c :: c in b ==> separator < c)
    ensures Less(Join(a, separator, i), Join(b, separator, j)) <==> Less(a, b) || (a == b && Less(i, j))
    ensures Join(a, separator, i) == Join(b, separator, j) ==> a == b && i == j
    decreases |a|
  {
    var x, y := Join(a, separator, i), Join(b, separator, j);
    assert a != [] ==> a[0] in a;
    assert b != [] ==> b[0] in b;
    if a == [] {
      assert x[1..] == i && (b == [] ==> y[1..] == j);
    } else if b == [] {
      assert y[0] == separator && x[0] == a[0];
    } else {
      assert forall c :: c in a[1..] ==> c in a;
      assert forall c :: c in b[1..] ==> c in b;
      assert x[1..] == Join(a[1..], separator, i) && y[1..] == Join(b[1..], separator, j);
      JoinedOrder(a[1..], i, b[1..], j, separator);
      assert a == [a[0]] + a[1..] && b == [b[0]] + b[1..];
    }
  }
}
