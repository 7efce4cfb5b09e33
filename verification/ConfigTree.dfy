/**
 Putting a nested dict together again from rows that each hold one path of it.
 */
module ConfigTree {
  import opened Prelude

  /** A JSON value: a dict, or anything else. */
  datatype Json = Leaf(value: int) | Obj(fields: Fields)

  type Fields = map<string, Json>

  type Path = seq<string>

  /** `next_value` if it is a dict, else a new one. */
  function DictAt(t: Fields, key: string): Fields {
    if key in t && t[key].Obj? then t[key].fields else map[]
  }

  /** `_assign_path` */
  function Assign(t: Fields, path: Path, v: Json): Fields
    requires path != []
    decreases |path|
  {
    if |path| == 1 then t[path[0] := v]
    else t[path[0] := Obj(Assign(DictAt(t, path[0]), path[1..], v))]
  }

  function Read(j: Json, path: Path): Option<Json>
    decreases |path|
  {
    if path == [] then Some(j)
    else if j.Obj? && path[0] in j.fields then Read(j.fields[path[0]], path[1..])
    else None
  }

  datatype Entry = Entry(path: Path, value: Json)

  /** Assigning the rows one after the other. */
  function AssignAll(t: Fields, rows: seq<Entry>): Fields
    requires forall e :: e in rows ==> e.path != []
    decreases |rows|
  {
    if rows == [] then t
    else Assign(AssignAll(t, rows[..|rows| - 1]), rows[|rows| - 1].path, rows[|rows| - 1].value)
  }

  /** Neither path leads through the other. */
  predicate Apart(p: Path, q: Path) {
    !(p <= q) && !(q <= p)
  }

  /** No row's path leads through another's; the same row may come more than once. */
  ghost predicate PrefixFree(rows: seq<Entry>) {
    && (forall e :: e in rows ==> e.path != [])
    && forall e, f :: e in rows && f in rows ==> e == f || Apart(e.path, f.path)
  }

  // ---------------------------------------------------------------- order does not matter

  lemma {:induction false} ApartTails(p: Path, q: Path)
    requires Apart(p, q) && p != [] && q != [] && p[0] == q[0]
    ensures |p| > 1 && |q| > 1 && Apart(p[1..], q[1..])
  {
    assert p == [p[0]] + p[1..] && q == [q[0]] + q[1..];
  }

  /** The value that an assignment leaves under the first key of its path. */
  function Under(sub: Fields, path: Path, v: Json): Json
    requires path != []
  {
    if |path| == 1 then v else Obj(Assign(sub, path[1..], v))
  }

  lemma {:induction false} AssignTwiceBelow(t: Fields, k: string, p: Path, v: Json, q: Path, w: Json)
    requires |p| > 1 && |q| > 1 && p[0] == q[0] == k
    ensures Assign(Assign(t, p, v), q, w) == t[k := Obj(Assign(Assign(DictAt(t, k), p[1..], v), q[1..], w))]
  {
    var inner := Assign(DictAt(t, k), p[1..], v);
    assert Assign(t, p, v) == t[k := Obj(inner)];
    assert DictAt(t[k := Obj(inner)], k) == inner;
  }

  lemma {:induction false} AssignTwiceBeside(t: Fields, p: Path, v: Json, q: Path, w: Json)
    requires p != [] && q != [] && p[0] != q[0]
    ensures Assign(Assign(t, p, v), q, w) == t[p[0] := Under(DictAt(t, p[0]), p, v)][q[0] := Under(DictAt(t, q[0]), q, w)]
  {
    var u := t[p[0] := Under(DictAt(t, p[0]), p, v)];
    assert Assign(t, p, v) == u;
    assert DictAt(u, q[0]) == DictAt(t, q[0]);
  }

  lemma {:induction false} AssignsCommute(t: Fields, p: Path, v: Json, q: Path, w: Json)
    requires p != [] && q != [] && Apart(p, q)
    ensures Assign(Assign(t, p, v), q, w) == Assign(Assign(t, q, w), p, v)
    decreases |p|
  {
    if p[0] == q[0] {
      ApartTails(p, q);
      AssignsCommute(DictAt(t, p[0]), p[1..], v, q[1..], w);
      AssignTwiceBelow(t, p[0], p, v, q, w);
      AssignTwiceBelow(t, p[0], q, w, p, v);
    } else {
      AssignTwiceBeside(t, p, v, q, w);
      AssignTwiceBeside(t, q, w, p, v);
      UpdatesCommute(t, p[0], Under(DictAt(t, p[0]), p, v), q[0], Under(DictAt(t, q[0]), q, w));
    }
  }

  lemma {:induction false} UpdatesCommute(t: Fields, a: string, x: Json, b: string, y: Json)
    requires a != b
    ensures t[a := x][b := y] == t[b := y][a := x]
  {
  }

  lemma {:induction false} AssignAgain(t: Fields, p: Path, v: Json)
    requires p != []
    ensures Assign(Assign(t, p, v), p, v) == Assign(t, p, v)
    decreases |p|
  {
    if |p| > 1 {
      AssignAgain(DictAt(t, p[0]), p[1..], v);
      AssignTwiceBelow(t, p[0], p, v, p, v);
    }
  }

  function Without(rows: seq<Entry>, e: Entry): (r: seq<Entry>)
    ensures forall x :: x in r <==> x in rows && x != e
  {
    if rows == [] then []
    else
      var rest := Without(rows[..|rows| - 1], e);
      if rows[|rows| - 1] == e then rest else rest + [rows[|rows| - 1]]
  }

  lemma {:induction false} WithoutAbsent(rows: seq<Entry>, e: Entry)
    requires e !in rows
    ensures Without(rows, e) == rows
    decreases |rows|
  {
    if rows != [] {
      WithoutAbsent(rows[..|rows| - 1], e);
      assert rows == rows[..|rows| - 1] + [rows[|rows| - 1]];
    }
  }

  /** A row may be assigned last instead of wherever it stands, once or more often. */
  lemma {:induction false} AssignLast(t: Fields, rows: seq<Entry>, e: Entry)
    requires PrefixFree(rows) && e in rows
    ensures AssignAll(t, rows) == Assign(AssignAll(t, Without(rows, e)), e.path, e.value)
    decreases |rows|
  {
    var front, last := rows[..|rows| - 1], rows[|rows| - 1];
    assert rows == front + [last];
    if last != e {
      AssignLast(t, front, e);
      var others := Without(front, e);
      assert (others + [last])[..|others|] == others;
      AssignsCommute(AssignAll(t, others), e.path, e.value, last.path, last.value);
    } else if e in front {
      AssignLast(t, front, e);
      AssignAgain(AssignAll(t, Without(front, e)), e.path, e.value);
    } else {
      WithoutAbsent(front, e);
    }
  }

  /** The same prefix-free rows give the same tree, in whatever order and however often
      each of them comes. */
  lemma {:induction false} OrderDoesNotMatter(t: Fields, rows: seq<Entry>, rows': seq<Entry>)
    requires PrefixFree(rows) && forall e :: e in rows <==> e in rows'
    ensures AssignAll(t, rows) == AssignAll(t, rows')
    decreases |rows|
  {
    if rows == [] {
      assert forall e :: e !in rows';
    } else {
      var front, e := rows[..|rows| - 1], rows[|rows| - 1];
      assert rows == front + [e];
      if e in front {
        OrderDoesNotMatter(t, front, rows');
        AssignLast(t, front, e);
        AssignAgain(AssignAll(t, Without(front, e)), e.path, e.value);
      } else {
        OrderDoesNotMatter(t, front, Without(rows', e));
        AssignLast(t, rows', e);
      }
    }
  }

  // ---------------------------------------------------------------- reading back

  lemma {:induction false} ReadAssigned(t: Fields, p: Path, v: Json)
    requires p != []
    ensures Read(Obj(Assign(t, p, v)), p) == Some(v)
    decreases |p|
  {
    if |p| > 1 {
      ReadAssigned(DictAt(t, p[0]), p[1..], v);
    }
  }

  lemma {:induction false} ReadElsewhere(t: Fields, q: Path, w: Json, p: Path)
    requires q != [] && Apart(p, q)
    ensures Read(Obj(Assign(t, q, w)), p) == Read(Obj(t), p)
    decreases |p|
  {
    assert p != [] by { assert [] <= q; }
    if p[0] == q[0] {
      ApartTails(p, q);
      ReadElsewhere(DictAt(t, p[0]), q[1..], w, p[1..]);
      if !(p[0] in t && t[p[0]].Obj?) {
        assert Read(Obj(map[]), p[1..]) == None;
      }
    }
  }

  /** Every row's value can be read back at its path, whatever was there before. */
  lemma {:induction false} RowsReadBack(t: Fields, rows: seq<Entry>, e: Entry)
    requires PrefixFree(rows) && e in rows
    ensures Read(Obj(AssignAll(t, rows)), e.path) == Some(e.value)
    decreases |rows|
  {
    var front, last := rows[..|rows| - 1], rows[|rows| - 1];
    assert rows == front + [last];
    if e == last {
      ReadAssigned(AssignAll(t, front), last.path, last.value);
    } else {
      RowsReadBack(t, front, e);
      ReadElsewhere(AssignAll(t, front), last.path, last.value, e.path);
    }
  }

  // ---------------------------------------------------------------- inverse of flattening

  /** No dict inside the value is empty. */
  ghost predicate Full(j: Json)
    decreases j
  {
    j.Obj? ==> j.fields != map[] && forall k :: k in j.fields ==> Full(j.fields[k])
  }

  ghost predicate AllFull(t: Fields) {
    forall k :: k in t ==> Full(t[k])
  }

  ghost predicate LeafAt(j: Json, p: Path, v: Json) {
    v.Leaf? && Read(j, p) == Some(v)
  }

  /** `rows` lists the leaves of `t`, each under its path. */
  ghost predicate IsFlattening(t: Fields, rows: seq<Entry>) {
    && PrefixFree(rows)
    && (forall e :: e in rows ==> e.value.Leaf?)
    && forall p, v :: Entry(p, v) in rows <==> LeafAt(Obj(t), p, v)
  }

  lemma {:induction false} FullHasLeaf(j: Json) returns (p: Path, v: Json)
    requires Full(j)
    ensures LeafAt(j, p, v)
    decreases j
  {
    if j.Leaf? {
      p, v := [], j;
    } else {
      var k :| k in j.fields;
      var q;
      q, v := FullHasLeaf(j.fields[k]);
      p := [k] + q;
      assert p[1..] == q;
    }
  }

  ghost predicate SameLeaves(a: Json, b: Json) {
    forall p, v :: LeafAt(a, p, v) <==> LeafAt(b, p, v)
  }

  lemma {:induction false} SubtreeLeaves(a: Fields, b: Fields, k: string)
    requires SameLeaves(Obj(a), Obj(b)) && k in a && k in b
    ensures SameLeaves(a[k], b[k])
  {
    forall p, v ensures LeafAt(a[k], p, v) <==> LeafAt(b[k], p, v) {
      assert ([k] + p)[1..] == p;
      assert LeafAt(Obj(a), [k] + p, v) <==> LeafAt(Obj(b), [k] + p, v);
    }
  }

  lemma {:induction false} KeyHasLeaf(a: Fields, b: Fields, k: string)
    requires SameLeaves(Obj(a), Obj(b)) && AllFull(a) && k in a
    ensures k in b
  {
    var p, v := FullHasLeaf(a[k]);
    assert ([k] + p)[1..] == p;
    assert LeafAt(Obj(a), [k] + p, v);
    assert LeafAt(Obj(b), [k] + p, v);
  }

  /** A value without empty dicts is determined by its leaves. */
  lemma {:induction false} LeavesDetermine(a: Json, b: Json)
    requires Full(a) && Full(b) && SameLeaves(a, b)
    ensures a == b
    decreases a
  {
    if a.Leaf? {
      assert LeafAt(a, [], a);
      assert LeafAt(b, [], a);
    } else if b.Leaf? {
      assert LeafAt(a, [], b) <==> LeafAt(b, [], b);
    } else {
      LeavesDetermineFields(a, a.fields, b.fields);
    }
  }

  lemma {:induction false} LeavesDetermineFields(whole: Json, a: Fields, b: Fields)
    requires AllFull(a) && AllFull(b) && SameLeaves(Obj(a), Obj(b))
    requires forall k :: k in a ==> a[k] < whole
    ensures a == b
    decreases whole, 0
  {
    forall k ensures k in a <==> k in b {
      if k in a { KeyHasLeaf(a, b, k); }
      if k in b { KeyHasLeaf(b, a, k); }
    }
    forall k | k in a ensures a[k] == b[k] {
      SubtreeLeaves(a, b, k);
      LeavesDetermine(a[k], b[k]);
    }
  }

  lemma {:induction false} AssignKeepsFull(t: Fields, p: Path, v: Json)
    requires AllFull(t) && Full(v) && p != []
    ensures AllFull(Assign(t, p, v)) && Assign(t, p, v) != map[]
    decreases |p|
  {
    assert p[0] in Assign(t, p, v);
    if |p| > 1 {
      AssignKeepsFull(DictAt(t, p[0]), p[1..], v);
    }
  }

  lemma {:induction false} AllAssignedIsFull(rows: seq<Entry>)
    requires forall e :: e in rows ==> e.path != [] && e.value.Leaf?
    ensures AllFull(AssignAll(map[], rows))
    decreases |rows|
  {
    if rows != [] {
      AllAssignedIsFull(rows[..|rows| - 1]);
      var last := rows[|rows| - 1];
      AssignKeepsFull(AssignAll(map[], rows[..|rows| - 1]), last.path, last.value);
    }
  }

  /** Reading through a leaf, or stopping short of it, yields no other leaf. */
  lemma {:induction false} ReadNear(t: Fields, q: Path, w: Json, p: Path)
    requires q != [] && w.Leaf? && p != q && (p <= q || q <= p)
    ensures match Read(Obj(Assign(t, q, w)), p) case None => true case Some(j) => j.Obj?
    decreases |p|
  {
    if p != [] {
      if |q| == 1 {
        assert p[1..] != [] by { assert p == [p[0]] + p[1..]; assert q == [q[0]]; }
      } else {
        assert p == [p[0]] + p[1..] && q == [q[0]] + q[1..];
        ReadNear(DictAt(t, q[0]), q[1..], w, p[1..]);
      }
    }
  }

  /** The assembled tree has no leaf but those of the rows. */
  lemma {:induction false} NoOtherLeaves(rows: seq<Entry>, p: Path, v: Json)
    requires forall e :: e in rows ==> e.path != [] && e.value.Leaf?
    requires LeafAt(Obj(AssignAll(map[], rows)), p, v)
    ensures Entry(p, v) in rows
    decreases |rows|
  {
    if rows != [] {
      var front, last := rows[..|rows| - 1], rows[|rows| - 1];
      var t := AssignAll(map[], front);
      if p == last.path {
        ReadAssigned(t, last.path, last.value);
        assert last == Entry(p, v);
      } else if Apart(p, last.path) {
        ReadElsewhere(t, last.path, last.value, p);
        NoOtherLeaves(front, p, v);
      } else {
        ReadNear(t, last.path, last.value, p);
      }
    }
  }

  /** Un-flattening inverts flattening: the rows of a tree without empty dicts, in
      any order, assemble to that tree. */
  lemma {:induction false} UnflattenInvertsFlatten(t: Fields, rows: seq<Entry>)
    requires AllFull(t) && IsFlattening(t, rows)
    ensures AssignAll(map[], rows) == t
  {
    var u := AssignAll(map[], rows);
    AllAssignedIsFull(rows);
    forall p, v ensures LeafAt(Obj(u), p, v) <==> LeafAt(Obj(t), p, v) {
      if LeafAt(Obj(u), p, v) {
        NoOtherLeaves(rows, p, v);
      }
      if LeafAt(Obj(t), p, v) {
        RowsReadBack(map[], rows, Entry(p, v));
      }
    }
    LeavesDetermineFields(Obj(u), u, t);
  }
}
