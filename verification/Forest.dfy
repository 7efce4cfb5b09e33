/**
 Parent links as a value: the structure that the JSON history and the
 `chat_message` rows both store. Everything said about ancestors, cycles and
 descents is said here once and used for both representations.
 */
module Forest {
  import opened Prelude

  /** For every message id, the id of its parent, or None for a root. */
  type Links = map<Id, Option<Id>>

  function ParentOf(g: Links, i: Id): Option<Id> {
    if i in g then g[i] else None
  }

  /** The n-th ancestor of `i`; None once the chain has run out. */
  ghost function Up(g: Links, i: Id, n: nat): Option<Id>
    decreases n
  {
    if n == 0 then Some(i)
    else match ParentOf(g, i)
      case None => None
      case Some(p) => Up(g, p, n - 1)
  }

  /** `a` is a proper ancestor of `d`. */
  ghost predicate Ancestor(g: Links, a: Id, d: Id) {
    exists n: nat :: n >= 1 && Up(g, d, n) == Some(a)
  }

  /** No message is its own ancestor. */
  ghost predicate Acyclic(g: Links) {
    forall i :: i in g ==> !Ancestor(g, i, i)
  }

  /** Every parent that is named exists. */
  ghost predicate Closed(g: Links) {
    forall i {:trigger ParentOf(g, i)} :: ParentOf(g, i).Some? ==> ParentOf(g, i).value in g
  }

  ghost predicate Ends(g: Links, i: Id) {
    exists n: nat :: Up(g, i, n) == None
  }

  /** Walking up from any message reaches a root after finitely many steps. */
  ghost predicate Grounded(g: Links) {
    forall i :: i in g ==> Ends(g, i)
  }

  lemma {:induction false} UpAdd(g: Links, i: Id, a: nat, b: nat)
    ensures Up(g, i, a).Some? ==> Up(g, i, a + b) == Up(g, Up(g, i, a).value, b)
    ensures Up(g, i, a).None? ==> Up(g, i, a + b) == None
    decreases a
  {
    if a > 0 && ParentOf(g, i).Some? {
      UpAdd(g, ParentOf(g, i).value, a - 1, b);
    }
  }

  /** `x` is met within the first `n` steps of the walk up from `i`. */
  ghost predicate Visits(g: Links, i: Id, n: nat, x: Id) {
    exists k: nat :: k < n && Up(g, i, k) == Some(x)
  }

  /** The walk up from `i` meets no message a second time. */
  ghost predicate NeverReturns(g: Links, i: Id) {
    forall x {:trigger Ancestor(g, x, x)} :: Ancestor(g, x, x) ==> x != i && !Ancestor(g, x, i)
  }

  lemma {:induction false} AcyclicNeverReturns(g: Links, i: Id)
    requires Acyclic(g)
    ensures NeverReturns(g, i)
  {
    forall x ensures !Ancestor(g, x, x) {
      assert x !in g ==> ParentOf(g, x) == None;
    }
  }

  lemma {:induction false} ParentNeverReturns(g: Links, i: Id, p: Id)
    requires ParentOf(g, i) == Some(p)
    ensures Ancestor(g, p, i) && forall x :: Ancestor(g, x, p) ==> Ancestor(g, x, i)
    ensures NeverReturns(g, i) ==> NeverReturns(g, p)
  {
    assert Up(g, i, 1) == Up(g, p, 0);
    forall x | Ancestor(g, x, p) ensures Ancestor(g, x, i) {
      var n: nat :| n >= 1 && Up(g, p, n) == Some(x);
      assert Up(g, i, n + 1) == Some(x);
    }
  }

  /** The pigeonhole step: a chain that never returns visits a new message at every step. */
  lemma {:induction false} ChainIsDistinct(g: Links, i: Id, n: nat) returns (visited: set<Id>)
    requires NeverReturns(g, i)
    requires Up(g, i, n).Some?
    ensures visited <= g.Keys && |visited| == n
    ensures forall x :: x in visited ==> Visits(g, i, n, x)
    decreases n
  {
    if n == 0 {
      visited := {};
    } else {
      var p := ParentOf(g, i).value;
      ParentNeverReturns(g, i, p);
      var rest := ChainIsDistinct(g, p, n - 1);
      forall x | x in rest ensures Visits(g, i, n, x) && x != i {
        var k: nat :| k < n - 1 && Up(g, p, k) == Some(x);
        assert Up(g, i, k + 1) == Some(x);
        assert x == i ==> Ancestor(g, i, i);
      }
      assert Up(g, i, 0) == Some(i);
      visited := rest + {i};
    }
  }

  lemma {:induction false} ChainIsShort(g: Links, i: Id, n: nat)
    requires NeverReturns(g, i)
    requires Up(g, i, n).Some?
    ensures n <= |g|
  {
    var visited := ChainIsDistinct(g, i, n);
    SubsetCard(visited, g.Keys);
    assert |g.Keys| == |g|;
  }

  /** A loop can be followed for ever, so no walk from it ends. */
  lemma {:induction false} LoopNeverEnds(g: Links, i: Id, n: nat, m: nat)
    requires n >= 1 && Up(g, i, n) == Some(i)
    ensures Up(g, i, m).Some?
    decreases m
  {
    if m < n {
      UpAdd(g, i, m, n - m);
    } else {
      LoopNeverEnds(g, i, n, m - n);
      UpAdd(g, i, n, m - n);
    }
  }

  /** A walk up ends exactly when it meets no message twice, and it is enough to
      follow it for one step more than there are messages. */
  lemma {:induction false} EndsIffNeverReturns(g: Links, i: Id)
    ensures Ends(g, i) <==> NeverReturns(g, i)
    ensures Ends(g, i) <==> Up(g, i, |g| + 1) == None
  {
    if Ends(g, i) {
      var m: nat :| Up(g, i, m) == None;
      forall x | Ancestor(g, x, x) ensures x != i && !Ancestor(g, x, i) {
        EndedWalkMeetsNoLoop(g, i, m, x);
      }
    }
    if NeverReturns(g, i) && Up(g, i, |g| + 1).Some? {
      ChainIsShort(g, i, |g| + 1);
    }
  }

  lemma {:induction false} EndedWalkMeetsNoLoop(g: Links, i: Id, m: nat, x: Id)
    requires Up(g, i, m) == None && Ancestor(g, x, x)
    ensures x != i && !Ancestor(g, x, i)
  {
    var n: nat :| n >= 1 && Up(g, x, n) == Some(x);
    LoopNeverEnds(g, x, n, m);
    if Ancestor(g, x, i) {
      var k: nat :| k >= 1 && Up(g, i, k) == Some(x);
      UpAdd(g, i, k, m);
      UpAdd(g, i, m, k);
    }
  }

  /** Having no cycle is the same as every walk up ending. */
  lemma {:induction false} AcyclicIffGrounded(g: Links)
    ensures Acyclic(g) <==> Grounded(g)
  {
    if Acyclic(g) {
      forall i | i in g ensures Ends(g, i) {
        AcyclicNeverReturns(g, i);
        EndsIffNeverReturns(g, i);
      }
    }
    if Grounded(g) {
      forall i | i in g ensures !Ancestor(g, i, i) {
        EndsIffNeverReturns(g, i);
      }
    }
  }

  /** Where two graphs agree on a parent-closed part, walks from it agree. */
  lemma {:induction false} UpAgrees(g: Links, h: Links, part: set<Id>, i: Id, n: nat)
    requires i in part && part <= g.Keys && part <= h.Keys
    requires forall x :: x in part ==> g[x] == h[x] && (g[x].Some? ==> g[x].value in part)
    ensures Up(g, i, n) == Up(h, i, n)
    decreases n
  {
    if n > 0 && g[i].Some? {
      UpAgrees(g, h, part, g[i].value, n - 1);
    }
  }

  /** A new leaf below an existing message, or a new root, cannot close a cycle. */
  lemma {:induction false} AddLeaf(g: Links, i: Id, p: Option<Id>)
    requires Closed(g) && Acyclic(g)
    requires i !in g
    requires p.Some? ==> p.value in g
    ensures Closed(g[i := p]) && Acyclic(g[i := p])
  {
    var h := g[i := p];
    AcyclicIffGrounded(g);
    forall x | x in g ensures Ends(h, x) {
      var n: nat :| Up(g, x, n) == None;
      UpAgrees(g, h, g.Keys, x, n);
    }
    assert Ends(h, i) by {
      if p.Some? {
        var n: nat :| Up(h, p.value, n) == None;
        assert Up(h, i, n + 1) == None;
      } else {
        assert Up(h, i, 1) == None;
      }
    }
    AcyclicIffGrounded(h);
  }

  lemma {:induction false} TwoCycle(g: Links, a: Id, b: Id)
    requires a in g && b in g && g[a] == Some(b) && g[b] == Some(a)
    ensures !Acyclic(g)
  {
    assert Up(g, a, 1) == Up(g, b, 0);
    assert Up(g, b, 2) == Up(g, a, 1);
    assert Ancestor(g, b, b);
  }
}
