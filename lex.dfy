/**
 * The order Python's `sorted` puts strings in: lexicographic by code point,
 * a proper prefix before any of its extensions.  (Dafny's own `<` on
 * sequences means "proper prefix", so the order is defined here.)
 */
module Lex {

  predicate Less(a: string, b: string)
    decreases |a|
  {
    if a == [] then b != []
    else if b == [] then false
    else a[0] < b[0] || (a[0] == b[0] && Less(a[1..], b[1..]))
  }

  predicate LessOrEqual(a: string, b: string)
  {
    a == b || Less(a, b)
  }

  lemma {:induction false} Irreflexive(a: string)
    ensures !Less(a, a)
    decreases |a|
  {
    if a != [] {
      Irreflexive(a[1..]);
    }
  }

  lemma {:induction false} Asymmetric(a: string, b: string)
    ensures !(Less(a, b) && Less(b, a))
    decreases |a|
  {
    if a != [] && b != [] && a[0] == b[0] {
      Asymmetric(a[1..], b[1..]);
    }
  }

  lemma {:induction false} Transitive(a: string, b: string, c: string)
    requires Less(a, b) && Less(b, c)
    ensures Less(a, c)
    decreases |a|
  {
    if a != [] && a[0] == b[0] && b[0] == c[0] {
      Transitive(a[1..], b[1..], c[1..]);
    }
  }

  lemma {:induction false} Total(a: string, b: string)
    ensures a == b || Less(a, b) || Less(b, a)
    decreases |a|
  {
    if a != [] && b != [] && a[0] == b[0] {
      Total(a[1..], b[1..]);
      if a[1..] == b[1..] {
        assert a == [a[0]] + a[1..] && b == [b[0]] + b[1..];
      }
    }
  }

  /** Comparing two strings that begin with pieces of one length compares those pieces first. */
  lemma {:induction false} Append(a1: string, b1: string, a2: string, b2: string)
    requires |a1| == |a2|
    ensures Less(a1 + b1, a2 + b2) <==> Less(a1, a2) || (a1 == a2 && Less(b1, b2))
    decreases |a1|
  {
    if a1 != [] {
      assert (a1 + b1)[0] == a1[0] && (a2 + b2)[0] == a2[0];
      assert (a1 + b1)[1..] == a1[1..] + b1;
      assert (a2 + b2)[1..] == a2[1..] + b2;
      Append(a1[1..], b1, a2[1..], b2);
      if a1[0] == a2[0] && a1[1..] == a2[1..] {
        assert a1 == [a1[0]] + a1[1..] && a2 == [a2[0]] + a2[1..];
      }
      if a1 == a2 {
        Irreflexive(a1);
      }
    } else {
      assert a1 + b1 == b1 && a2 + b2 == b2;
    }
  }

  /** A common prefix does not change the order. */
  lemma {:induction false} CommonPrefix(pre: string, x: string, y: string)
    ensures Less(pre + x, pre + y) <==> Less(x, y)
    decreases |pre|
  {
    if pre == [] {
      assert pre + x == x && pre + y == y;
    } else {
      assert (pre + x)[0] == pre[0] && (pre + x)[1..] == pre[1..] + x;
      assert (pre + y)[0] == pre[0] && (pre + y)[1..] == pre[1..] + y;
      CommonPrefix(pre[1..], x, y);
    }
  }

  /** A common prefix and suffix around pieces of one length do not change their order. */
  lemma Framed(pre: string, a: string, b: string, suf: string)
    requires |a| == |b|
    ensures Less(pre + a + suf, pre + b + suf) <==> Less(a, b)
  {
    Append(a, suf, b, suf);
    Irreflexive(suf);
    CommonPrefix(pre, a + suf, b + suf);
    assert pre + a + suf == pre + (a + suf);
    assert pre + b + suf == pre + (b + suf);
  }

  /** The greatest element of a finite non-empty set of strings, in this order. */
  ghost function Greatest(s: set<string>): (m: string)
    requires s != {}
    ensures m in s
    ensures forall x :: x in s ==> LessOrEqual(x, m)
    decreases s
  {
    var x :| x in s;
    if s == {x} then x
    else
      var rest := Greatest(s - {x});
      if Less(rest, x) then
        assert forall y :: y in s - {x} ==> LessOrEqual(y, x) by {
          forall y | y in s - {x}
            ensures LessOrEqual(y, x)
          {
            if y != rest { Transitive(y, rest, x); }
          }
        }
        x
      else
        Total(rest, x);
        rest
  }

  /** An element that no other element of the set exceeds is the greatest one. */
  lemma GreatestUnique(s: set<string>, m: string)
    requires m in s
    requires forall x :: x in s ==> LessOrEqual(x, m)
    ensures m == Greatest(s)
  {
    var g := Greatest(s);
    if m != g {
      assert Less(g, m) && Less(m, g);
      Asymmetric(g, m);
    }
  }
}
