/** Small value types and sequence facts shared by the other modules. */
module Prelude {

  datatype Option<+T> = None | Some(value: T)

  /** Message, user, channel and server identifiers are opaque strings. */
  type Id = string

  ghost predicate NoDup<T>(s: seq<T>) {
    forall i, j :: 0 <= i < j < |s| ==> s[i] != s[j]
  }

  ghost function Elements<T(!new)>(s: seq<T>): set<T> {
    set x | x in s
  }

  /** `[x for x in s if x in keep]` */
  function Keep<T(==,!new)>(s: seq<T>, keep: set<T>): (r: seq<T>)
    ensures forall x :: x in r <==> x in s && x in keep
  {
    if s == [] then []
    else
      var rest := Keep(s[..|s| - 1], keep);
      if s[|s| - 1] in keep then rest + [s[|s| - 1]] else rest
  }

  /** `[x for x in s if x not in gone]` */
  function Drop<T(==,!new)>(s: seq<T>, gone: set<T>): (r: seq<T>)
    ensures forall x :: x in r <==> x in s && x !in gone
  {
    if s == [] then []
    else
      var rest := Drop(s[..|s| - 1], gone);
      if s[|s| - 1] in gone then rest else rest + [s[|s| - 1]]
  }

  /** Filtering a list without duplicates makes none. */
  lemma {:induction false} FilteredNoDup<T(!new)>(s: seq<T>, x: set<T>)
    requires NoDup(s)
    ensures NoDup(Keep(s, x)) && NoDup(Drop(s, x))
    decreases |s|
  {
    if s != [] {
      FilteredNoDup(s[..|s| - 1], x);
    }
  }

  lemma {:induction false} NoDupConcat<T>(a: seq<T>, b: seq<T>)
    requires NoDup(a) && NoDup(b)
    requires forall x :: x in a ==> x !in b
    ensures NoDup(a + b)
  {
    forall i, j | 0 <= i < j < |a + b| ensures (a + b)[i] != (a + b)[j] {
      if i < |a| <= j {
        assert (a + b)[i] in a && (a + b)[j] in b;
      }
    }
  }

  lemma {:induction false} TakeOneMore<T>(s: seq<T>, k: nat)
    requires k < |s|
    ensures s[..k + 1] == s[..k] + [s[k]]
  {
  }

  lemma {:induction false} SubsetCard<T>(a: set<T>, b: set<T>)
    requires a <= b
    ensures |a| <= |b|
    decreases |a|
  {
    if a != {} {
      var x :| x in a;
      SubsetCard(a - {x}, b - {x});
    }
  }

  // ---------------------------------------------------------------- order in a list

  /** `a` stands somewhere before `b`. */
  ghost predicate Before<T>(s: seq<T>, a: T, b: T) {
    exists i, j :: 0 <= i < j < |s| && s[i] == a && s[j] == b
  }

  lemma {:induction false} BeforeConcat<T>(s: seq<T>, t: seq<T>, a: T, b: T)
    ensures Before(s + t, a, b) <==> Before(s, a, b) || Before(t, a, b) || (a in s && b in t)
  {
    var all := s + t;
    if i, j :| 0 <= i < j < |s| && s[i] == a && s[j] == b {
      assert all[i] == a && all[j] == b;
    }
    if i, j :| 0 <= i < j < |t| && t[i] == a && t[j] == b {
      assert all[|s| + i] == a && all[|s| + j] == b;
    }
    if a in s && b in t {
      var i :| 0 <= i < |s| && s[i] == a;
      var j :| 0 <= j < |t| && t[j] == b;
      assert all[i] == a && all[|s| + j] == b;
    }
    if i, j :| 0 <= i < j < |all| && all[i] == a && all[j] == b {
      if |s| <= i {
        assert t[i - |s|] == a && t[j - |s|] == b;
      } else if |s| <= j {
        assert s[i] == a && t[j - |s|] == b;
      }
    }
  }

  lemma {:induction false} BeforeSnoc<T>(s: seq<T>, x: T, a: T, b: T)
    ensures Before(s + [x], a, b) <==> Before(s, a, b) || (a in s && b == x)
  {
    BeforeConcat(s, [x], a, b);
  }

  /** Filtering keeps what is left in order. */
  lemma {:induction false} DropKeepsBefore<T(!new)>(s: seq<T>, gone: set<T>, a: T, b: T)
    requires a !in gone && b !in gone
    ensures Before(Drop(s, gone), a, b) <==> Before(s, a, b)
    decreases |s|
  {
    if s != [] {
      var front, x := s[..|s| - 1], s[|s| - 1];
      DropKeepsBefore(front, gone, a, b);
      BeforeSnoc(front, x, a, b);
      BeforeSnoc(Drop(front, gone), x, a, b);
      assert s == front + [x];
    }
  }

  lemma {:induction false} KeepKeepsBefore<T(!new)>(s: seq<T>, keep: set<T>, a: T, b: T)
    requires a in keep && b in keep
    ensures Before(Keep(s, keep), a, b) <==> Before(s, a, b)
    decreases |s|
  {
    if s != [] {
      var front, x := s[..|s| - 1], s[|s| - 1];
      KeepKeepsBefore(front, keep, a, b);
      BeforeSnoc(front, x, a, b);
      BeforeSnoc(Keep(front, keep), x, a, b);
      assert s == front + [x];
    }
  }

  /** Everything else in the list stands before `x`. */
  ghost predicate IsLast<T(!new)>(s: seq<T>, x: T) {
    x in s && forall y :: y in s && y != x ==> Before(s, y, x)
  }

  lemma {:induction false} EndIsLast<T(!new)>(s: seq<T>, x: T)
    requires NoDup(s)
    ensures IsLast(s, x) <==> s != [] && s[|s| - 1] == x
  {
    if s != [] {
      var e := s[|s| - 1];
      assert e in s && !Before(s, e, x);
      if e == x {
        forall y | y in s && y != x ensures Before(s, y, x) {
          var i :| 0 <= i < |s| && s[i] == y;
        }
      }
    }
  }
}
