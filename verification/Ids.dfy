/** Mod identifiers, ordered as std::string orders them. */
module Ids {
  datatype Id = Id(text: string)

  predicate TextLess(a: string, b: string) {
    if b == [] then false
    else if a == [] then true
    else a[0] < b[0] || (a[0] == b[0] && TextLess(a[1..], b[1..]))
  }

  predicate Less(a: Id, b: Id) {
    TextLess(a.text, b.text)
  }

  lemma {:induction false} TextLessTotal(a: string, b: string)
    ensures TextLess(a, b) || a == b || TextLess(b, a)
  {
    if a != [] && b != [] && a[0] == b[0] {
      TextLessTotal(a[1..], b[1..]);
      assert a == [a[0]] + a[1..] && b == [b[0]] + b[1..];
    }
  }

  lemma {:induction false} TextLessTransitive(a: string, b: string, c: string)
    requires TextLess(a, b) && TextLess(b, c)
    ensures TextLess(a, c)
  {
    if a != [] && a[0] == b[0] && b[0] == c[0] {
      TextLessTransitive(a[1..], b[1..], c[1..]);
    }
  }

  lemma {:induction false} TextLessIrreflexive(a: string)
    ensures !TextLess(a, a)
  {
    if a != [] {
      TextLessIrreflexive(a[1..]);
    }
  }

  /** Identifiers are strictly and totally ordered. */
  lemma LessIsStrictTotalOrder(a: Id, b: Id, c: Id)
    ensures !Less(a, a)
    ensures Less(a, b) || a == b || Less(b, a)
    ensures Less(a, b) && Less(b, c) ==> Less(a, c)
  {
    TextLessIrreflexive(a.text);
    TextLessTotal(a.text, b.text);
    if Less(a, b) && Less(b, c) {
      TextLessTransitive(a.text, b.text, c.text);
    }
  }

  ghost predicate IsLeast(x: Id, s: set<Id>) {
    x in s && forall y :: y in s && y != x ==> Less(x, y)
  }

  lemma {:induction false} LeastExists(s: set<Id>) returns (x: Id)
    requires s != {}
    ensures IsLeast(x, s)
    decreases |s|
  {
    x :| x in s;
    if s != {x} {
      var rest := s - {x};
      assert s == rest + {x};
      var m := LeastExists(rest);
      LessIsStrictTotalOrder(x, m, m);
      if Less(m, x) {
        x := m;
      } else {
        forall y | y in s && y != x ensures Less(x, y) {
          if y != m { LessIsStrictTotalOrder(x, m, y); }
        }
      }
    }
  }

  /** Takes the least element, as dereferencing begin() of an ordered set does. */
  method Least(s: set<Id>) returns (x: Id)
    requires s != {}
    ensures x in s && IsLeast(x, s)
  {
    ghost var m := LeastExists(s);
    assert forall y :: y in s ==> y == m || Less(m, y);
    x :| x in s && forall y :: y in s ==> y == x || Less(x, y);
  }

  /** `a` comes no later than `b` in the lexicographic order of identifier sequences. */
  ghost predicate Precedes(a: seq<Id>, b: seq<Id>) {
    a == b || exists i :: DiffersFirstAt(a, b, i)
  }

  ghost predicate DiffersFirstAt(a: seq<Id>, b: seq<Id>, i: nat) {
    i < |a| && i < |b| && a[..i] == b[..i] && Less(a[i], b[i])
  }

  lemma PrecedesAntisymmetric(a: seq<Id>, b: seq<Id>)
    requires Precedes(a, b) && Precedes(b, a)
    ensures a == b
  {
    if a != b {
      var i: nat :| DiffersFirstAt(a, b, i);
      var j: nat :| DiffersFirstAt(b, a, j);
      if i < j {
        assert b[..j][i] == a[..j][i];
        LessIsStrictTotalOrder(a[i], a[i], a[i]);
      } else if j < i {
        assert b[..i][j] == a[..i][j];
        LessIsStrictTotalOrder(a[j], a[j], a[j]);
      } else {
        LessIsStrictTotalOrder(a[i], b[i], a[i]);
      }
    }
  }
}
