/**
 Taking a message and its children out of a forest and hanging the
 grandchildren below the message's own parent, as a step on parent links.
 */
module Splice {
  import opened Prelude
  import opened Forest

  ghost function ChildSet(g: Links, i: Id): set<Id> {
    set c | c in g && g[c] == Some(i)
  }

  ghost predicate IsSplice(g: Links, id: Id, g': Links)
    requires id in g
  {
    && g'.Keys == g.Keys - ({id} + ChildSet(g, id))
    && forall s :: s in g' ==> g'[s] == if g[s].Some? && g[s].value in ChildSet(g, id) then g[id] else g[s]
  }

  /** The new parent of a survivor is a survivor, and was one of its ancestors:
      the parent itself, or the one three levels up. */
  lemma {:induction false} SpliceStep(g: Links, id: Id, g': Links, s: Id)
    requires id in g && Closed(g) && Acyclic(g) && IsSplice(g, id, g') && s in g'
    ensures g'[s].Some? ==> g'[s].value in g'
    ensures g[s].Some? && g[s].value !in ChildSet(g, id) ==> g[s].value in g' && Up(g, s, 1) == g'[s]
    ensures g[s].Some? && g[s].value in ChildSet(g, id) ==> Up(g, s, 2) == Some(id) && Up(g, s, 3) == g'[s]
  {
    if g[s].Some? {
      var c := g[s].value;
      assert Up(g, s, 1) == Up(g, c, 0);
      if c in ChildSet(g, id) {
        assert Up(g, s, 2) == Up(g, c, 1) == Up(g, id, 0);
        assert Up(g, s, 3) == Up(g, c, 2) == Up(g, id, 1);
        if g[id].Some? {
          var p := g[id].value;
          assert Up(g, id, 1) == Up(g, p, 0);
          assert p == id ==> Ancestor(g, id, id);
          assert Up(g, id, 2) == Up(g, p, 1);
          assert p in ChildSet(g, id) ==> Ancestor(g, id, id);
        }
      }
    }
  }

  lemma {:induction false} SpliceUpWasUp(g: Links, id: Id, g': Links, s: Id, n: nat) returns (k: nat)
    requires id in g && Closed(g) && Acyclic(g) && IsSplice(g, id, g') && s in g'
    requires Up(g', s, n).Some?
    ensures k >= n && Up(g, s, k) == Up(g', s, n)
    decreases n
  {
    if n == 0 {
      k := 0;
    } else {
      SpliceStep(g, id, g', s);
      var step: nat := if g[s].value in ChildSet(g, id) then 3 else 1;
      var rest := SpliceUpWasUp(g, id, g', g'[s].value, n - 1);
      UpAdd(g, s, step, rest);
      k := step + rest;
    }
  }

  lemma {:induction false} SpliceUpStays(g: Links, id: Id, g': Links, s: Id, k: nat) returns (n: nat)
    requires id in g && Closed(g) && Acyclic(g) && IsSplice(g, id, g') && s in g'
    requires Up(g, s, k).Some? && Up(g, s, k).value in g'
    ensures n <= k && (k >= 1 ==> n >= 1) && Up(g', s, n) == Up(g, s, k)
    decreases k
  {
    if k == 0 {
      n := 0;
    } else {
      SpliceStep(g, id, g', s);
      var step: nat := if g[s].value in ChildSet(g, id) then 3 else 1;
      assert k >= step by {
        assert k == 1 ==> Up(g, s, k) == Up(g, g[s].value, 0);
      }
      UpAdd(g, s, step, k - step);
      var rest := SpliceUpStays(g, id, g', g'[s].value, k - step);
      n := rest + 1;
    }
  }

  /** Between two survivors the ancestor relation is exactly what it was. */
  lemma {:induction false} SpliceKeepsAncestors(g: Links, id: Id, g': Links, a: Id, d: Id)
    requires id in g && Closed(g) && Acyclic(g) && IsSplice(g, id, g') && a in g' && d in g'
    ensures Ancestor(g', a, d) <==> Ancestor(g, a, d)
  {
    if Ancestor(g', a, d) {
      var n: nat :| n >= 1 && Up(g', d, n) == Some(a);
      var k := SpliceUpWasUp(g, id, g', d, n);
    }
    if Ancestor(g, a, d) {
      var k: nat :| k >= 1 && Up(g, d, k) == Some(a);
      var n := SpliceUpStays(g, id, g', d, k);
    }
  }

  lemma {:induction false} SpliceKeepsShape(g: Links, id: Id, g': Links)
    requires id in g && Closed(g) && Acyclic(g) && IsSplice(g, id, g')
    ensures Closed(g') && Acyclic(g')
  {
    forall i | i in g' ensures g'[i].Some? ==> g'[i].value in g' {
      SpliceStep(g, id, g', i);
    }
    forall i | i in g' ensures !Ancestor(g', i, i) {
      SpliceKeepsAncestors(g, id, g', i, i);
    }
  }
}
