/** Time-zone-free date-times, ordered the way the validator compares them.

    A date-time is its seven calendar fields. Two of them compare
    lexicographically on (year, month, day, hour, minute, second, nano):
    the date first, then the time of day. `IsBefore` and `IsAfter` are the
    strict comparisons the validator uses. The lemmas below show that this
    order is a strict total order, which is what the validator's rules rely on. */
module Timestamps {

  datatype DateTime = DateTime(year: int, month: int, day: int,
                               hour: int, minute: int, second: int, nano: int)
  {
    /** The fields in the order in which they are compared. */
    function Key(): (k: seq<int>) {
      [year, month, day, hour, minute, second, nano]
    }

    /** Strictly earlier than `other`. */
    predicate IsBefore(other: DateTime) {
      LexLess(Key(), other.Key())
    }

    /** Strictly later than `other`. */
    predicate IsAfter(other: DateTime) {
      LexLess(other.Key(), Key())
    }

    /** Earlier than or equal to `other`. */
    predicate NotAfter(other: DateTime) {
      !IsAfter(other)
    }
  }

  /** A date-time given to the minute, with zero seconds and nanoseconds. */
  function Of(year: int, month: int, day: int, hour: int, minute: int): (t: DateTime) {
    DateTime(year, month, day, hour, minute, 0, 0)
  }

  /** Lexicographic strict order on keys of equal length. */
  predicate LexLess(a: seq<int>, b: seq<int>)
    requires |a| == |b|
  {
    |a| > 0 && (a[0] < b[0] || (a[0] == b[0] && LexLess(a[1..], b[1..])))
  }

  /** Appending the same fields to two keys keeps their order. */
  lemma {:induction false} LexAppendSame(a: seq<int>, b: seq<int>, c: seq<int>)
    requires |a| == |b|
    ensures LexLess(a + c, b + c) <==> LexLess(a, b)
  {
    if |a| == 0 {
      assert a + c == c && b + c == c;
      LexIrreflexive(c);
    } else {
      assert (a + c)[1..] == a[1..] + c && (b + c)[1..] == b[1..] + c;
      LexAppendSame(a[1..], b[1..], c);
    }
  }

  lemma {:induction false} LexIrreflexive(a: seq<int>)
    ensures !LexLess(a, a)
  {
    if |a| > 0 {
      LexIrreflexive(a[1..]);
    }
  }

  lemma {:induction false} LexTransitive(a: seq<int>, b: seq<int>, c: seq<int>)
    requires |a| == |b| == |c|
    requires LexLess(a, b) && LexLess(b, c)
    ensures LexLess(a, c)
  {
    if a[0] == b[0] == c[0] {
      LexTransitive(a[1..], b[1..], c[1..]);
    }
  }

  lemma {:induction false} LexTotal(a: seq<int>, b: seq<int>)
    requires |a| == |b|
    ensures a == b || LexLess(a, b) || LexLess(b, a)
  {
    if |a| > 0 && a[0] == b[0] {
      LexTotal(a[1..], b[1..]);
      if a[1..] == b[1..] {
        assert a == [a[0]] + a[1..] && b == [b[0]] + b[1..];
      }
    }
  }

  /** No date-time is before itself: `t.IsBefore(t)` is always false. */
  lemma BeforeIrreflexive(t: DateTime)
    ensures !t.IsBefore(t) && !t.IsAfter(t)
  {
    LexIrreflexive(t.Key());
  }

  /** `IsAfter` is `IsBefore` with its operands swapped, and the two exclude each other. */
  lemma AfterIsConverse(s: DateTime, t: DateTime)
    ensures s.IsAfter(t) <==> t.IsBefore(s)
    ensures !(s.IsBefore(t) && s.IsAfter(t))
  {
    if s.IsBefore(t) && s.IsAfter(t) {
      LexTransitive(s.Key(), t.Key(), s.Key());
      LexIrreflexive(s.Key());
    }
  }

  lemma BeforeTransitive(s: DateTime, t: DateTime, u: DateTime)
    requires s.IsBefore(t) && t.IsBefore(u)
    ensures s.IsBefore(u)
  {
    LexTransitive(s.Key(), t.Key(), u.Key());
  }

  /** Any two date-times are equal, or one is strictly before the other. */
  lemma Trichotomy(s: DateTime, t: DateTime)
    ensures s == t || s.IsBefore(t) || s.IsAfter(t)
  {
    LexTotal(s.Key(), t.Key());
    if s.Key() == t.Key() {
      assert s.Key()[0] == t.Key()[0] && s.Key()[1] == t.Key()[1] && s.Key()[2] == t.Key()[2];
      assert s.Key()[3] == t.Key()[3] && s.Key()[4] == t.Key()[4];
      assert s.Key()[5] == t.Key()[5] && s.Key()[6] == t.Key()[6];
    }
  }

  /** "Not after" is transitive: s <= t <= u implies s <= u. */
  lemma NotAfterTransitive(s: DateTime, t: DateTime, u: DateTime)
    requires s.NotAfter(t) && t.NotAfter(u)
    ensures s.NotAfter(u)
  {
    Trichotomy(s, t);
    Trichotomy(t, u);
    if s.IsBefore(t) && t.IsBefore(u) {
      BeforeTransitive(s, t, u);
      AfterIsConverse(s, u);
    }
  }

  /** Date-times built to the minute are ordered as their
      (year, month, day, hour, minute) tuples are, field by field. */
  lemma OfOrder(y: int, mo: int, d: int, h: int, mi: int, y': int, mo': int, d': int, h': int, mi': int)
    ensures Of(y, mo, d, h, mi).IsBefore(Of(y', mo', d', h', mi')) <==>
              LexLess([y, mo, d, h, mi], [y', mo', d', h', mi'])
  {
    assert Of(y, mo, d, h, mi).Key() == [y, mo, d, h, mi] + [0, 0];
    assert Of(y', mo', d', h', mi').Key() == [y', mo', d', h', mi'] + [0, 0];
    LexAppendSame([y, mo, d, h, mi], [y', mo', d', h', mi'], [0, 0]);
  }
}
