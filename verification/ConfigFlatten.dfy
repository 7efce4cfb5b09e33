/**
 The repair of flattened dicts as a whole: its row loop is an un-flattening, which
 does not depend on the order of the rows and inverts the flattening of the blob.
 */
module ConfigFlatten {
  import opened Prelude
  import opened ConfigTree
  import opened ConfigStartup

  // ---------------------------------------------------------------- the loop is an un-flattening

  /** Absorbing one row changes nothing about which others can be absorbed. */
  lemma {:induction false} AbsorbingKeepsAbsorbs(ns: Namespace, dict: Fields, k: string, other: string, v: Json)
    requires Absorbs(ns, dict, k)
    ensures Absorbs(ns, Assign(dict, PathOf(ns, k).value, v), other) <==> Absorbs(ns, dict, other)
  {
  }

  /** The row with its path, if `dict` absorbs it. */
  function EntryOf(ns: Namespace, s: Rows, dict: Fields, k: string): (r: seq<Entry>)
    requires k in s
    ensures forall e :: e in r ==> e.path != []
  {
    if Absorbs(ns, dict, k) then [Entry(PathOf(ns, k).value, s[k])] else []
  }

  /** The rows that `dict` absorbs, each with its path, in the order they come. */
  function EntriesOf(ns: Namespace, s: Rows, dict: Fields, keys: seq<string>): (r: seq<Entry>)
    requires forall k :: k in keys ==> k in s
    ensures forall e :: e in r ==> e.path != []
    decreases |keys|
  {
    if keys == [] then [] else EntriesOf(ns, s, dict, keys[..|keys| - 1]) + EntryOf(ns, s, dict, keys[|keys| - 1])
  }

  lemma {:induction false} AbsorbsAsFound(ns: Namespace, s: Rows, dict: Fields, keys: seq<string>, other: string)
    requires forall k :: k in keys ==> k in s
    ensures Absorbs(ns, AbsorbRows(ns, s, dict, keys).dict, other) <==> Absorbs(ns, dict, other)
    decreases |keys|
  {
    if keys != [] {
      var front, k := keys[..|keys| - 1], keys[|keys| - 1];
      var before := AbsorbRows(ns, s, dict, front);
      AbsorbsAsFound(ns, s, dict, front, other);
      if Absorbs(ns, before.dict, k) {
        AbsorbingKeepsAbsorbs(ns, before.dict, k, other, s[k]);
      }
    }
  }

  lemma {:induction false} OrphansAreAbsorbed(ns: Namespace, s: Rows, dict: Fields, keys: seq<string>)
    requires forall k :: k in keys ==> k in s
    ensures AbsorbRows(ns, s, dict, keys).orphans == set k | k in keys && Absorbs(ns, dict, k)
    decreases |keys|
  {
    if keys != [] {
      var front, k := keys[..|keys| - 1], keys[|keys| - 1];
      OrphansAreAbsorbed(ns, s, dict, front);
      AbsorbsAsFound(ns, s, dict, front, k);
      assert keys == front + [k];
    }
  }

  /** A connection that is no dict stays as it is, and its rows are left where they are. */
  lemma {:induction false} LeafConnectionStays(ns: Namespace, s: Rows, dict: Fields, keys: seq<string>, connection: string)
    requires ns.api && (forall k :: k in keys ==> k in s) && connection in dict && dict[connection].Leaf?
    ensures
      var r := AbsorbRows(ns, s, dict, keys);
      && connection in r.dict && r.dict[connection] == dict[connection]
      && forall k :: k in r.orphans ==> PathOf(ns, k).Some? && PathOf(ns, k).value[0] != connection
    decreases |keys|
  {
    if keys != [] {
      LeafConnectionStays(ns, s, dict, keys[..|keys| - 1], connection);
    }
  }

  /** The loop over the rows of a namespace assigns exactly the rows that the dict
      absorbs as it is found. */
  lemma {:induction false} RepairIsUnflattening(ns: Namespace, s: Rows, dict: Fields, keys: seq<string>)
    requires forall k :: k in keys ==> k in s
    ensures AbsorbRows(ns, s, dict, keys).dict == AssignAll(dict, EntriesOf(ns, s, dict, keys))
    ensures AbsorbRows(ns, s, dict, keys).orphans == set k | k in keys && Absorbs(ns, dict, k)
    decreases |keys|
  {
    OrphansAreAbsorbed(ns, s, dict, keys);
    if keys != [] {
      var front, k := keys[..|keys| - 1], keys[|keys| - 1];
      RepairIsUnflattening(ns, s, dict, front);
      AbsorbsAsFound(ns, s, dict, front, k);
      var entries := EntriesOf(ns, s, dict, front);
      if Absorbs(ns, dict, k) {
        var e := Entry(PathOf(ns, k).value, s[k]);
        assert (entries + [e])[..|entries|] == entries;
      } else {
        assert entries + [] == entries;
      }
    }
  }

  /** Some row among `keys` that the dict absorbs gives the entry. */
  ghost predicate EntryFrom(ns: Namespace, s: Rows, dict: Fields, keys: seq<string>, e: Entry) {
    exists k :: k in keys && k in s && Absorbs(ns, dict, k) && PathOf(ns, k) == Some(e.path) && s[k] == e.value
  }

  lemma {:induction false} EntriesAre(ns: Namespace, s: Rows, dict: Fields, keys: seq<string>, e: Entry)
    requires forall k :: k in keys ==> k in s
    ensures e in EntriesOf(ns, s, dict, keys) <==> EntryFrom(ns, s, dict, keys, e)
    decreases |keys|
  {
    if keys != [] {
      var front, k := keys[..|keys| - 1], keys[|keys| - 1];
      EntriesAre(ns, s, dict, front, e);
      assert keys == front + [k];
      assert e in EntryOf(ns, s, dict, k) <==> Absorbs(ns, dict, k) && e == Entry(PathOf(ns, k).value, s[k]);
    }
  }

  /** The repair of one dict does not depend on the order in which the queries return
      the rows, nor on how often each of them comes, if no row's path leads through
      another's. */
  lemma {:induction false} RepairOrderDoesNotMatter(ns: Namespace, s: Rows, dict: Fields, keys: seq<string>, keys': seq<string>)
    requires (forall k :: k in keys ==> k in s) && forall k :: k in keys <==> k in keys'
    requires PrefixFree(EntriesOf(ns, s, dict, keys))
    ensures AbsorbRows(ns, s, dict, keys) == AbsorbRows(ns, s, dict, keys')
  {
    RepairIsUnflattening(ns, s, dict, keys);
    RepairIsUnflattening(ns, s, dict, keys');
    forall e ensures e in EntriesOf(ns, s, dict, keys) <==> e in EntriesOf(ns, s, dict, keys') {
      EntriesAre(ns, s, dict, keys, e);
      EntriesAre(ns, s, dict, keys', e);
    }
    OrderDoesNotMatter(dict, EntriesOf(ns, s, dict, keys), EntriesOf(ns, s, dict, keys'));
  }

  /** Nor does the repair of the whole table. */
  lemma {:induction false} TableOrderDoesNotMatter(s: Rows, nss: seq<Namespace>, keys: seq<seq<string>>, keys': seq<seq<string>>)
    requires AllSelect(s, nss, keys) && AllSelect(s, nss, keys')
    requires forall i :: 0 <= i < |nss| ==>
      (forall k :: k in keys[i] <==> k in keys'[i]) && PrefixFree(EntriesOf(nss[i], s, DictOf(s, nss[i].key), keys[i]))
    ensures RepairRows(s, nss, keys) == RepairRows(s, nss, keys')
    ensures Updates(s, nss, keys) == Updates(s, nss, keys') && Orphans(s, nss, keys) == Orphans(s, nss, keys')
    decreases |nss|
  {
    if nss != [] {
      var n := |nss| - 1;
      TableOrderDoesNotMatter(s, nss[..n], keys[..n], keys'[..n]);
      RepairOrderDoesNotMatter(nss[n], s, DictOf(s, nss[n].key), keys[n], keys'[n]);
    }
  }

  // ---------------------------------------------------------------- dotted keys

  predicate DotFree(p: Path) {
    forall part :: part in p ==> '.' !in part
  }

  lemma {:induction false} SplitFirst(x: string, y: string)
    requires '.' !in x
    ensures SplitDots(x) == [x] && SplitDots(x + "." + y) == [x] + SplitDots(y)
    decreases |x|
  {
    if x == [] {
      assert (x + "." + y)[1..] == y;
    } else {
      SplitFirst(x[1..], y);
      assert (x + "." + y)[1..] == x[1..] + "." + y;
      assert [x[0]] + x[1..] == x;
    }
  }

  /** Splitting inverts joining. */
  lemma {:induction false} SplitOfJoin(p: Path)
    requires p != [] && DotFree(p)
    ensures SplitDots(JoinDots(p)) == p
    decreases |p|
  {
    if |p| == 1 {
      SplitFirst(p[0], "");
    } else {
      SplitFirst(p[0], JoinDots(p[1..]));
      SplitOfJoin(p[1..]);
      assert p == [p[0]] + p[1..];
    }
  }

  /** The path that the repair reads from a fragment. */
  function PathOfFragment(ns: Namespace, fragment: string): Option<Path> {
    if !ns.api then Some(SplitDots(fragment))
    else
      var split := SplitFragment(fragment);
      if split.None? then None else Some([split.value.0] + split.value.1)
  }

  /** For plain dicts a path is read back from its dotted form exactly when no part of
      it holds a dot. */
  lemma {:induction false} PlainPathReturnsIff(ns: Namespace, p: Path)
    requires !ns.api
    ensures PathOfFragment(ns, JoinDots(p)) == Some(p) <==> p != [] && DotFree(p)
  {
    if p != [] && DotFree(p) {
      SplitOfJoin(p);
    }
    JoinOfSplit(JoinDots(p));
  }

  // ---- dicts keyed by connection

  /** The part begins with the name of a field. */
  predicate BeginsField(part: string) {
    exists f :: f in ApiConfigFields && f <= part
  }

  /** The first part of the connection is a number, with something after it. */
  predicate Numbered(connection: string, q: Path) {
    var first := SplitDots(connection)[0];
    IsDigits(first) && (connection != first || JoinDots(q) != "")
  }

  /** When a path below a connection is read back from its dotted form: a connection
      that begins with a number has to be that number; for any other a field has to
      follow it, and no later part may begin like a field. */
  predicate ConnectionReturns(connection: string, q: Path) {
    && q != [] && DotFree(q)
    && if Numbered(connection, q) then connection == SplitDots(connection)[0]
       else connection != "" && BeginsField(q[0]) && forall i :: 1 <= i < |q| ==> !BeginsField(q[i])
  }

  lemma {:induction false} FieldsHaveNoDot(f: string)
    requires f in ApiConfigFields
    ensures '.' !in f
  {
  }

  /** A field name stands where the path begins exactly when the first part begins with it. */
  lemma {:induction false} FieldAt(q: Path, f: string)
    requires q != [] && '.' !in f
    ensures f <= JoinDots(q) <==> f <= q[0]
  {
    assert forall i :: 0 <= i < |f| ==> f[i] != '.';
    assert |q| > 1 ==> JoinDots(q)[|q[0]|] == '.';
  }

  lemma {:induction false} MarkerHere(before: string, q: Path)
    requires q != []
    ensures MarkerAt(before + "." + JoinDots(q), ApiConfigFields, |before|) <==> BeginsField(q[0])
  {
    var s := before + "." + JoinDots(q);
    forall f | f in ApiConfigFields ensures OccursAt(s, "." + f, |before|) <==> f <= q[0] {
      FieldsHaveNoDot(f);
      FieldAt(q, f);
      MarkerFollows(before, JoinDots(q), f);
    }
  }

  lemma {:induction false} MarkerFollows(before: string, rest: string, f: string)
    ensures OccursAt(before + "." + rest, "." + f, |before|) <==> f <= rest
  {
    var s := before + "." + rest;
    var n := |"." + f|;
    if |before| + n <= |s| {
      assert s[|before|..|before| + n] == "." + rest[..|f|];
      assert ("." + rest[..|f|])[1..] == rest[..|f|] && ("." + f)[1..] == f;
    }
  }

  ghost predicate MarkerAfter(s: string, n: int) {
    exists j :: j > n && MarkerAt(s, ApiConfigFields, j)
  }

  ghost predicate FieldLater(q: Path) {
    exists i :: 1 <= i < |q| && BeginsField(q[i])
  }

  lemma {:induction false} FieldLaterStep(q: Path)
    requires |q| > 1
    ensures FieldLater(q) <==> BeginsField(q[1]) || FieldLater(q[1..])
  {
    if i :| 1 <= i < |q| && BeginsField(q[i]) {
      assert i > 1 ==> q[1..][i - 1] == q[i];
    }
    if i :| 1 <= i < |q[1..]| && BeginsField(q[1..][i]) {
      assert q[i + 1] == q[1..][i];
    }
  }

  lemma {:induction false} MarkerAfterStep(s: string, n: int, m: int)
    requires n < m && forall j :: n < j < m ==> !MarkerAt(s, ApiConfigFields, j)
    ensures MarkerAfter(s, n) <==> MarkerAt(s, ApiConfigFields, m) || MarkerAfter(s, m)
  {
  }

  /** A marker stands after the first part exactly when some later part begins like a field. */
  lemma {:induction false} LaterMarker(before: string, q: Path)
    requires q != [] && DotFree(q)
    ensures MarkerAfter(before + "." + JoinDots(q), |before|) <==> FieldLater(q)
    decreases |q|
  {
    var s := before + "." + JoinDots(q);
    var next := before + "." + q[0];
    forall j | |before| < j < |next| ensures !MarkerAt(s, ApiConfigFields, j) {
      NoMarkerInside(before, q, j);
    }
    if |q| == 1 {
      assert forall j :: j >= |s| ==> !MarkerAt(s, ApiConfigFields, j);
      assert s == next;
    } else {
      assert s == next + "." + JoinDots(q[1..]);
      MarkerHere(next, q[1..]);
      LaterMarker(next, q[1..]);
      FieldLaterStep(q);
      MarkerAfterStep(s, |before|, |next|);
    }
  }

  lemma {:induction false} NoMarkerInside(before: string, q: Path, j: int)
    requires q != [] && DotFree(q) && |before| < j < |before + "." + q[0]|
    ensures !MarkerAt(before + "." + JoinDots(q), ApiConfigFields, j)
  {
    var s := before + "." + JoinDots(q);
    assert s[j] == q[0][j - |before| - 1];
    assert q[0][j - |before| - 1] in q[0] && q[0] in q;
    if MarkerAt(s, ApiConfigFields, j) {
      MarkerIsDot(s, j);
    }
  }

  /** A dot and more text behind it do not change the first part. */
  lemma {:induction false} FirstOfLonger(connection: string, rest: string)
    ensures SplitDots(connection + "." + rest)[0] == SplitDots(connection)[0]
    decreases |connection|
  {
    var s := connection + "." + rest;
    if connection != [] {
      assert s[1..] == connection[1..] + "." + rest;
      FirstOfLonger(connection[1..], rest);
    }
  }

  lemma {:induction false} NumberedIff(connection: string, q: Path)
    ensures
      var fragment, first := connection + "." + JoinDots(q), SplitDots(connection)[0];
      && SplitDots(fragment)[0] == first
      && (Numbered(connection, q) <==> IsDigits(first) && |fragment| > |first| + 1)
      && (connection == first <==> |connection| == |first|)
  {
    FirstOfLonger(connection, JoinDots(q));
    FirstPart(connection);
    assert |connection| == |SplitDots(connection)[0]| ==> connection[..|connection|] == connection;
  }

  /** Where the split cuts a fragment. */
  function CutOf(fragment: string): int {
    var first := SplitDots(fragment)[0];
    if IsDigits(first) && |fragment| > |first| + 1 then |first| else LastMarker(fragment, |fragment| - 1)
  }

  lemma {:induction false} CutIsSplit(ns: Namespace, fragment: string)
    requires ns.api
    ensures
      var n := CutOf(fragment);
      && n < |fragment|
      && PathOfFragment(ns, fragment) ==
         if 0 < n < |fragment| then Some([fragment[..n]] + SplitDots(fragment[n + 1..])) else None
  {
    FirstPart(fragment);
  }

  /** Cutting the fragment at `n` gives the connection and its path back exactly when
      that is where the connection ends and the path holds no dots. */
  lemma {:induction false} CutReturnsIff(connection: string, q: Path, n: nat)
    requires n < |connection + "." + JoinDots(q)|
    ensures
      var fragment := connection + "." + JoinDots(q);
      [fragment[..n]] + SplitDots(fragment[n + 1..]) == [connection] + q <==> n == |connection| && q != [] && DotFree(q)
  {
    var fragment := connection + "." + JoinDots(q);
    var key, path := fragment[..n], SplitDots(fragment[n + 1..]);
    assert ([key] + path)[0] == key && ([key] + path)[1..] == path;
    assert ([connection] + q)[0] == connection && ([connection] + q)[1..] == q;
    assert fragment[..|connection|] == connection && fragment[|connection| + 1..] == JoinDots(q);
    if q != [] && DotFree(q) {
      SplitOfJoin(q);
    }
    JoinOfSplit(fragment[n + 1..]);
  }

  lemma {:induction false} CutFallsAfter(connection: string, q: Path)
    requires q != [] && DotFree(q)
    ensures connection != "" && CutOf(connection + "." + JoinDots(q)) == |connection| <==> ConnectionReturns(connection, q)
  {
    var fragment := connection + "." + JoinDots(q);
    NumberedIff(connection, q);
    if !Numbered(connection, q) {
      MarkerHere(connection, q);
      LaterMarker(connection, q);
      var r := LastMarker(fragment, |fragment| - 1);
      assert forall j :: j >= |fragment| ==> !MarkerAt(fragment, ApiConfigFields, j);
      assert MarkerAfter(fragment, |connection|) <==> exists j :: |connection| < j < |fragment| && MarkerAt(fragment, ApiConfigFields, j);
    }
  }

  lemma {:induction false} ConnectionReturnsIff(ns: Namespace, connection: string, q: Path)
    requires ns.api && q != []
    ensures PathOfFragment(ns, JoinDots([connection] + q)) == Some([connection] + q) <==> ConnectionReturns(connection, q)
  {
    var fragment := connection + "." + JoinDots(q);
    assert ([connection] + q)[1..] == q;
    CutIsSplit(ns, fragment);
    var n := CutOf(fragment);
    if 0 < n {
      CutReturnsIff(connection, q, n);
    }
    if DotFree(q) {
      CutFallsAfter(connection, q);
    }
  }

  /** When the repair reads a path back from its dotted form. */
  predicate ReadsBack(ns: Namespace, p: Path) {
    if ns.api then p != [] && ConnectionReturns(p[0], p[1..]) else p != [] && DotFree(p)
  }

  /** The condition is exact, for every path and both kinds of dict. */
  lemma {:induction false} PathReturnsIff(ns: Namespace, p: Path)
    ensures PathOfFragment(ns, JoinDots(p)) == Some(p) <==> ReadsBack(ns, p)
  {
    if !ns.api {
      PlainPathReturnsIff(ns, p);
    } else if |p| > 1 {
      ConnectionReturnsIff(ns, p[0], p[1..]);
      assert [p[0]] + p[1..] == p;
    } else {
      var split := SplitFragment(JoinDots(p));
      assert split.Some? ==> split.value.1 != [];
    }
  }

  lemma {:induction false} JoinTwo(a: string, b: string)
    ensures JoinDots([a, b]) == a + "." + b
  {
    assert [a, b][1..] == [b] && JoinDots([b]) == b;
  }

  lemma {:induction false} JoinThree(a: string, b: string, c: string)
    ensures JoinDots([a, b, c]) == JoinDots([a + "." + b, c])
  {
    assert [a, b, c][1..] == [b, c];
    JoinTwo(b, c);
    JoinTwo(a + "." + b, c);
    DotsRegroup(a, b, c);
  }

  lemma {:induction false} FieldBegins(f: string)
    requires f in ApiConfigFields
    ensures '.' !in f && BeginsField(f)
  {
    FieldsHaveNoDot(f);
    assert f <= f;
  }

  lemma {:induction false} LaterFieldIsLost(connection: string, q: Path, i: nat)
    requires !IsDigits(SplitDots(connection)[0]) && 1 <= i < |q| && BeginsField(q[i])
    ensures !ConnectionReturns(connection, q)
  {
  }

  lemma {:induction false} OneFieldReturns(connection: string, f: string)
    requires connection != "" && !IsDigits(SplitDots(connection)[0]) && '.' !in f && BeginsField(f)
    ensures ConnectionReturns(connection, [f])
  {
  }

  lemma {:induction false} FieldIsRead(ns: Namespace, connection: string, f: string)
    requires ns.api && f in ApiConfigFields && connection != "" && !IsDigits(SplitDots(connection)[0])
    ensures PathOfFragment(ns, JoinDots([connection, f])) == Some([connection, f])
  {
    FieldBegins(f);
    OneFieldReturns(connection, f);
    ConnectionReturnsIff(ns, connection, [f]);
    assert [connection] + [f] == [connection, f];
  }

  /** A family that is lost: below a connection that does not begin with a number, a
      custom header named like a field is not read back. */
  lemma {:induction false} HeaderIsLost(ns: Namespace, connection: string, header: string)
    requires ns.api && header in ApiConfigFields && !IsDigits(SplitDots(connection)[0])
    ensures !ReadsBack(ns, [connection, "headers", header])
  {
    var p := [connection, "headers", header];
    assert p[1..] == ["headers", header];
    FieldBegins(header);
    LaterFieldIsLost(connection, p[1..], 1);
  }

  /** Instead it becomes a field of another connection. */
  lemma {:induction false} HeaderIsMisread(ns: Namespace, connection: string, header: string)
    requires ns.api && header in ApiConfigFields && !IsDigits(SplitDots(connection)[0])
    ensures PathOfFragment(ns, JoinDots([connection, "headers", header])) == Some([connection + "." + "headers", header])
  {
    FirstOfLonger(connection, "headers");
    JoinThree(connection, "headers", header);
    FieldIsRead(ns, connection + "." + "headers", header);
  }

  // ---------------------------------------------------------------- the repair inverts a flattening

  function Names(ns: Namespace): seq<string> {
    [ns.key] + ns.aliases
  }

  /** The row `k` holds what stands at `p`, under one of the names of the dict. */
  ghost predicate RowOf(s: Rows, ns: Namespace, k: string, p: Path) {
    k in s && FragmentOf(Names(ns), k) == Some(JoinDots(p))
  }

  /** The rows of the namespace are the leaves of `t`, each once, under dotted keys. */
  ghost predicate HoldsFlattened(s: Rows, ns: Namespace, t: Fields) {
    && (forall p, v :: LeafAt(Obj(t), p, v) ==> exists k :: RowOf(s, ns, k, p) && s[k] == v)
    && (forall k :: k in s && InNamespace(ns, k) ==> exists p :: RowOf(s, ns, k, p) && LeafAt(Obj(t), p, s[k]))
    && (forall k, k', p :: RowOf(s, ns, k, p) && RowOf(s, ns, k', p) ==> k == k')
  }

  /** Every leaf stands at a path that is read back. */
  ghost predicate PathsReturn(ns: Namespace, t: Fields) {
    forall p, v :: LeafAt(Obj(t), p, v) ==> ReadsBack(ns, p)
  }

  lemma {:induction false} NothingBelowLeaf(j: Json, p: Path, v: Json, q: Path)
    requires LeafAt(j, p, v) && p <= q && p != q
    ensures Read(j, q) == None
    decreases |p|
  {
    if p != [] {
      assert p == [p[0]] + p[1..] && q == [q[0]] + q[1..];
      NothingBelowLeaf(j.fields[p[0]], p[1..], v, q[1..]);
    }
  }

  lemma {:induction false} LeavesAreApart(j: Json, p: Path, v: Json, q: Path, w: Json)
    requires LeafAt(j, p, v) && LeafAt(j, q, w) && p != q
    ensures Apart(p, q)
  {
    if p <= q {
      NothingBelowLeaf(j, p, v, q);
    } else if q <= p {
      NothingBelowLeaf(j, q, w, p);
    }
  }

  /** Where a row of the namespace belongs, and what it holds. */
  lemma {:induction false} RowBelongs(ns: Namespace, s: Rows, t: Fields, k: string) returns (p: Path)
    requires HoldsFlattened(s, ns, t) && PathsReturn(ns, t) && k in s && InNamespace(ns, k)
    ensures PathOf(ns, k) == Some(p) && RowOf(s, ns, k, p) && LeafAt(Obj(t), p, s[k]) && Absorbs(ns, map[], k)
  {
    p :| RowOf(s, ns, k, p) && LeafAt(Obj(t), p, s[k]);
    PathReturnsIff(ns, p);
    assert PathOf(ns, k) == PathOfFragment(ns, JoinDots(p));
  }

  lemma {:induction false} RowsAreApart(ns: Namespace, s: Rows, t: Fields, keys: seq<string>, e: Entry, f: Entry)
    requires HoldsFlattened(s, ns, t) && PathsReturn(ns, t)
    requires EntryFrom(ns, s, map[], keys, e) && EntryFrom(ns, s, map[], keys, f)
    ensures e == f || Apart(e.path, f.path)
  {
    var k :| k in keys && k in s && Absorbs(ns, map[], k) && PathOf(ns, k) == Some(e.path) && s[k] == e.value;
    var k' :| k' in keys && k' in s && Absorbs(ns, map[], k') && PathOf(ns, k') == Some(f.path) && s[k'] == f.value;
    var p := RowBelongs(ns, s, t, k);
    var q := RowBelongs(ns, s, t, k');
    if p != q {
      LeavesAreApart(Obj(t), p, s[k], q, s[k']);
    }
  }

  /** A path that the repair reads is one that is read back. */
  lemma {:induction false} ReadPathReturns(ns: Namespace, k: string, p: Path)
    requires PathOf(ns, k) == Some(p)
    ensures ReadsBack(ns, p)
  {
    var fragment := FragmentOf(Names(ns), k).value;
    assert PathOfFragment(ns, fragment) == Some(p);
    if ns.api {
      SplitLosesNothing(fragment);
      var (key, path) := SplitFragment(fragment).value;
      assert ([key] + path)[1..] == path;
    } else {
      JoinOfSplit(fragment);
    }
    PathReturnsIff(ns, p);
  }

  /** Nothing but full dicts whose paths return can come out. */
  lemma {:induction false} RepairedIsReturned(ns: Namespace, s: Rows, t: Fields, keys: seq<string>)
    requires HoldsFlattened(s, ns, t) && Selects(s, ns, keys)
    requires AbsorbRows(ns, s, map[], keys).dict == t
    ensures AllFull(t) && PathsReturn(ns, t)
  {
    var entries := EntriesOf(ns, s, map[], keys);
    RepairIsUnflattening(ns, s, map[], keys);
    forall e ensures e in entries <==> EntryFrom(ns, s, map[], keys, e) {
      EntriesAre(ns, s, map[], keys, e);
    }
    assert forall e :: EntryFrom(ns, s, map[], keys, e) ==> e.value.Leaf?;
    AllAssignedIsFull(entries);
    forall p, v | LeafAt(Obj(t), p, v) ensures ReadsBack(ns, p) {
      NoOtherLeaves(entries, p, v);
      var k :| k in keys && k in s && Absorbs(ns, map[], k) && PathOf(ns, k) == Some(p) && s[k] == v;
      ReadPathReturns(ns, k, p);
    }
  }

  /** Whatever order the rows come in, and however often: a dict whose rows are the
      flattening of `t` is put together again exactly when no dict inside `t` is empty
      and every leaf stands at a path that is read back; then all those rows go. */
  lemma {:induction false} RepairInvertsFlattenIff(ns: Namespace, s: Rows, t: Fields, keys: seq<string>)
    requires HoldsFlattened(s, ns, t) && DictOf(s, ns.key) == map[] && Selects(s, ns, keys)
    ensures
      var r := AbsorbRows(ns, s, DictOf(s, ns.key), keys);
      && (r.dict == t <==> AllFull(t) && PathsReturn(ns, t))
      && (PathsReturn(ns, t) ==> r.orphans == set k | k in s && InNamespace(ns, k))
  {
    if AbsorbRows(ns, s, map[], keys).dict == t {
      RepairedIsReturned(ns, s, t, keys);
    }
    if PathsReturn(ns, t) {
      RepairIsUnflattening(ns, s, map[], keys);
      forall k | k in s && InNamespace(ns, k) ensures Absorbs(ns, map[], k) {
        var _ := RowBelongs(ns, s, t, k);
      }
      if AllFull(t) {
        FlattenedIsPutTogether(ns, s, t, keys);
      }
    }
  }

  lemma {:induction false} FlattenedIsPutTogether(ns: Namespace, s: Rows, t: Fields, keys: seq<string>)
    requires AllFull(t) && HoldsFlattened(s, ns, t) && PathsReturn(ns, t) && Selects(s, ns, keys)
    ensures AbsorbRows(ns, s, map[], keys).dict == t
  {
    var entries := EntriesOf(ns, s, map[], keys);
    RepairIsUnflattening(ns, s, map[], keys);
    forall e ensures e in entries <==> EntryFrom(ns, s, map[], keys, e) {
      EntriesAre(ns, s, map[], keys, e);
    }
    forall e, f | e in entries && f in entries ensures e == f || Apart(e.path, f.path) {
      RowsAreApart(ns, s, t, keys, e, f);
    }
    forall p, v ensures Entry(p, v) in entries <==> LeafAt(Obj(t), p, v) {
      EntryIsLeaf(ns, s, t, keys, p, v);
    }
    assert forall e :: e in entries ==> e == Entry(e.path, e.value);
    UnflattenInvertsFlatten(t, entries);
  }

  lemma {:induction false} EntryIsLeaf(ns: Namespace, s: Rows, t: Fields, keys: seq<string>, p: Path, v: Json)
    requires HoldsFlattened(s, ns, t) && PathsReturn(ns, t) && Selects(s, ns, keys)
    ensures LeafAt(Obj(t), p, v) <==> EntryFrom(ns, s, map[], keys, Entry(p, v))
  {
    if LeafAt(Obj(t), p, v) {
      var k :| RowOf(s, ns, k, p) && s[k] == v;
      PathReturnsIff(ns, p);
      assert PathOf(ns, k) == PathOfFragment(ns, JoinDots(p));
    }
    if k :| k in keys && k in s && Absorbs(ns, map[], k) && PathOf(ns, k) == Some(p) && s[k] == v {
      var q := RowBelongs(ns, s, t, k);
    }
  }

  /** The same in the table, where other dicts are repaired beside it. */
  lemma {:induction false} TableInvertsFlattenIff(s: Rows, nss: seq<Namespace>, keys: seq<seq<string>>, i: nat, t: Fields)
    requires Independent(nss) && AllSelect(s, nss, keys) && i < |nss|
    requires HoldsFlattened(s, nss[i], t) && DictOf(s, nss[i].key) == map[]
    ensures DictOf(RepairRows(s, nss, keys), nss[i].key) == t <==> AllFull(t) && PathsReturn(nss[i], t)
    ensures PathsReturn(nss[i], t) ==> forall k :: k in RepairRows(s, nss, keys) ==> !InNamespace(nss[i], k)
  {
    var s' := RepairRows(s, nss, keys);
    RepairInvertsFlattenIff(nss[i], s, t, keys[i]);
    DictAfterRepair(s, nss, keys, i);
    UpdatesAre(s, nss, keys);
    OrphansAre(s, nss, keys);
    forall k | PathsReturn(nss[i], t) && k in s && InNamespace(nss[i], k) ensures k !in s' {
      assert k in RepairAt(s, nss, keys, i).orphans;
    }
  }

  // ---------------------------------------------------------------- the walk of the migration

  /** `f'{prefix}.{key}'`, without the dot at the top of the blob. */
  function Below(prefix: string, key: string): string {
    if prefix == "" then key else prefix + "." + key
  }

  /** The name under which the walk knows what stands at `p`. */
  function NameOf(prefix: string, p: Path): string
    decreases |p|
  {
    if p == [] then prefix else NameOf(Below(prefix, p[0]), p[1..])
  }

  /** The walk stops at `p` below `name` and keeps `v`: there is no dict there, or the
      name is that of a known value. */
  ghost predicate KeptAt(j: Json, name: string, known: set<string>, p: Path, v: Json)
    decreases |p|, 1
  {
    if j.Leaf? || name in known then p == [] && v == j else KeptIn(j.fields, name, known, p, v)
  }

  ghost predicate KeptIn(t: Fields, prefix: string, known: set<string>, p: Path, v: Json)
    decreases |p|, 0
  {
    p != [] && p[0] in t && KeptAt(t[p[0]], Below(prefix, p[0]), known, p[1..], v)
  }

  /** `rows` has a row for every name of a kept value, and each holds a value kept
      under that name. */
  ghost predicate IsWalk(t: Fields, prefix: string, known: set<string>, rows: Rows) {
    && (forall p, v :: KeptIn(t, prefix, known, p, v) ==> NameOf(prefix, p) in rows)
    && (forall k :: k in rows ==> exists p :: k == NameOf(prefix, p) && KeptIn(t, prefix, known, p, rows[k]))
  }

  /** `_walk_blob`, whatever order the dicts are in. */
  method WalkBlob(data: Fields, prefix: string, known: set<string>) returns (rows: Rows)
    ensures IsWalk(data, prefix, known, rows)
    decreases Obj(data)
  {
    rows := map[];
    var rest := data.Keys;
    while rest != {}
      invariant rest <= data.Keys
      invariant IsWalk(data - rest, prefix, known, rows)
      decreases rest
    {
      var key :| key in rest;
      var path, value := Below(prefix, key), data[key];
      ghost var before := rows;
      var added: Rows;
      if path in known || value.Leaf? {
        added := map[path := value];
      } else {
        added := WalkBlob(value.fields, path, known);
      }
      rows := rows + added;
      WalkStep(data, rest, key, prefix, known, before, added);
      rest := rest - {key};
    }
    assert data - {} == data;
  }

  /** What the walk of one value adds, seen from the dict that holds it. */
  ghost predicate WalksOne(j: Json, name: string, known: set<string>, added: Rows) {
    if j.Leaf? || name in known then added == map[name := j] else IsWalk(j.fields, name, known, added)
  }

  lemma {:induction false} OneKept(data: Fields, key: string, prefix: string, known: set<string>, added: Rows)
    requires key in data && WalksOne(data[key], Below(prefix, key), known, added)
    ensures forall p, v :: KeptIn(data, prefix, known, p, v) && p[0] == key ==> NameOf(prefix, p) in added
    ensures forall k :: k in added ==>
      exists p :: k == NameOf(prefix, p) && KeptIn(data, prefix, known, p, added[k]) && p[0] == key
  {
    var j, name := data[key], Below(prefix, key);
    forall p, v | KeptIn(data, prefix, known, p, v) && p[0] == key ensures NameOf(prefix, p) in added {
      assert KeptAt(j, name, known, p[1..], v);
      if !(j.Leaf? || name in known) {
        assert KeptIn(j.fields, name, known, p[1..], v);
      }
    }
    forall k | k in added
      ensures exists p :: k == NameOf(prefix, p) && KeptIn(data, prefix, known, p, added[k]) && p[0] == key
    {
      var q: Path := [];
      if !(j.Leaf? || name in known) {
        q :| k == NameOf(name, q) && KeptIn(j.fields, name, known, q, added[k]);
      }
      var p := [key] + q;
      assert p[1..] == q;
      assert k == NameOf(prefix, p) && KeptIn(data, prefix, known, p, added[k]);
    }
  }

  lemma {:induction false} WalkStep(data: Fields, rest: set<string>, key: string, prefix: string, known: set<string>, before: Rows, added: Rows)
    requires rest <= data.Keys && key in rest
    requires IsWalk(data - rest, prefix, known, before) && WalksOne(data[key], Below(prefix, key), known, added)
    ensures IsWalk(data - (rest - {key}), prefix, known, before + added)
  {
    var done, next := data - rest, data - (rest - {key});
    OneKept(data, key, prefix, known, added);
    forall p, v | KeptIn(next, prefix, known, p, v) ensures NameOf(prefix, p) in before + added {
      assert KeptIn(data, prefix, known, p, v);
      assert p[0] != key ==> KeptIn(done, prefix, known, p, v);
    }
    forall k | k in before + added
      ensures exists p :: k == NameOf(prefix, p) && KeptIn(next, prefix, known, p, (before + added)[k])
    {
      if k in added {
        var p :| k == NameOf(prefix, p) && KeptIn(data, prefix, known, p, added[k]) && p[0] == key;
        assert KeptIn(next, prefix, known, p, added[k]);
      } else {
        var p :| k == NameOf(prefix, p) && KeptIn(done, prefix, known, p, before[k]);
        assert KeptIn(next, prefix, known, p, before[k]);
      }
    }
  }

  // ---- names without dots

  /** No key of a dict that the walk enters is blank or holds a dot; what stands inside
      a known value does not matter. */
  ghost predicate PlainKeys(t: Fields, prefix: string, known: set<string>)
    decreases Obj(t)
  {
    forall k :: k in t ==>
      && k != "" && '.' !in k
      && (t[k].Obj? && Below(prefix, k) !in known ==> PlainKeys(t[k].fields, Below(prefix, k), known))
  }

  /** Every part of the path is a key without dots. */
  predicate PlainPath(p: Path) {
    p != [] && DotFree(p) && "" !in p
  }

  lemma {:induction false} PlainName(prefix: string, p: Path)
    requires PlainPath(p)
    ensures NameOf(prefix, p) == Below(prefix, JoinDots(p))
    decreases |p|
  {
    assert p[0] in p;
    assert NameOf(Below(prefix, p[0]), []) == Below(prefix, p[0]);
    if |p| > 1 {
      var rest := p[1..];
      assert forall part :: part in rest ==> part in p;
      PlainName(Below(prefix, p[0]), rest);
      assert prefix + "." + (p[0] + "." + JoinDots(rest)) == (prefix + "." + p[0]) + "." + JoinDots(rest);
    } else {
      assert p[1..] == [];
    }
  }

  lemma {:induction false} KeptPathIsPlain(t: Fields, prefix: string, known: set<string>, p: Path, v: Json)
    requires PlainKeys(t, prefix, known) && KeptIn(t, prefix, known, p, v)
    ensures PlainPath(p)
    decreases |p|
  {
    var j, name := t[p[0]], Below(prefix, p[0]);
    if !(j.Leaf? || name in known) {
      KeptPathIsPlain(j.fields, name, known, p[1..], v);
    }
    assert p == [p[0]] + p[1..];
  }

  lemma {:induction false} KeptOnce(t: Fields, prefix: string, known: set<string>, p: Path, v: Json, w: Json)
    requires KeptIn(t, prefix, known, p, v) && KeptIn(t, prefix, known, p, w)
    ensures v == w
    decreases |p|
  {
    var j, name := t[p[0]], Below(prefix, p[0]);
    if !(j.Leaf? || name in known) {
      KeptOnce(j.fields, name, known, p[1..], v, w);
    }
  }

  /** Plain paths with one name are one path. */
  lemma {:induction false} NamesDiffer(prefix: string, p: Path, q: Path)
    requires PlainPath(p) && PlainPath(q) && Below(prefix, JoinDots(p)) == Below(prefix, JoinDots(q))
    ensures p == q
  {
    SplitOfJoin(p);
    SplitOfJoin(q);
    if prefix != "" {
      assert Below(prefix, JoinDots(p))[|prefix| + 1..] == JoinDots(p);
      assert Below(prefix, JoinDots(q))[|prefix| + 1..] == JoinDots(q);
    }
  }

  /** With plain keys the rows are determined: each holds the one value of its name. */
  lemma {:induction false} WalkIsExact(t: Fields, prefix: string, known: set<string>, rows: Rows, p: Path, v: Json)
    requires PlainKeys(t, prefix, known) && IsWalk(t, prefix, known, rows) && KeptIn(t, prefix, known, p, v)
    ensures PlainPath(p) && Below(prefix, JoinDots(p)) in rows && rows[Below(prefix, JoinDots(p))] == v
  {
    KeptPathIsPlain(t, prefix, known, p, v);
    PlainName(prefix, p);
    var k := NameOf(prefix, p);
    var q :| k == NameOf(prefix, q) && KeptIn(t, prefix, known, q, rows[k]);
    KeptPathIsPlain(t, prefix, known, q, rows[k]);
    PlainName(prefix, q);
    NamesDiffer(prefix, p, q);
    KeptOnce(t, prefix, known, p, v, rows[k]);
  }

  // ---- one dict of the blob

  /** The walk comes to what stands at `p`: nothing above it is known. */
  ghost predicate Reaches(t: Fields, prefix: string, known: set<string>, p: Path)
    decreases |p|
  {
    && p != [] && p[0] in t
    && (|p| > 1 ==>
          && t[p[0]].Obj? && Below(prefix, p[0]) !in known
          && Reaches(t[p[0]].fields, Below(prefix, p[0]), known, p[1..]))
  }

  lemma {:induction false} ReachedIsPlain(t: Fields, prefix: string, known: set<string>, p: Path)
    requires PlainKeys(t, prefix, known) && Reaches(t, prefix, known, p)
    ensures PlainPath(p)
    decreases |p|
  {
    if |p| > 1 {
      ReachedIsPlain(t[p[0]].fields, Below(prefix, p[0]), known, p[1..]);
    }
    assert p == [p[0]] + p[1..];
  }

  /** Below a place that the walk comes to it keeps what it keeps of the value there. */
  lemma {:induction false} KeptBelow(t: Fields, prefix: string, known: set<string>, p: Path, j: Json, q: Path, v: Json)
    requires Reaches(t, prefix, known, p) && Read(Obj(t), p) == Some(j)
    ensures KeptIn(t, prefix, known, p + q, v) <==> KeptAt(j, NameOf(prefix, p), known, q, v)
    decreases |p|
  {
    var sub, name := t[p[0]], Below(prefix, p[0]);
    assert (p + q)[0] == p[0] && (p + q)[1..] == p[1..] + q;
    assert Read(Obj(t), p) == Read(sub, p[1..]);
    if |p| > 1 {
      KeptBelow(sub.fields, name, known, p[1..], j, q, v);
    } else {
      assert p[1..] == [] && [] + q == q;
    }
  }

  /** A name below that of a plain path belongs to a longer path. */
  lemma {:induction false} UnderIsLonger(p: Path, r: Path)
    requires PlainPath(p) && PlainPath(r) && IsUnder(JoinDots(r), JoinDots(p))
    ensures |p| < |r| && r[..|p|] == p
  {
    var rest := JoinDots(r)[|JoinDots(p)| + 1..];
    assert JoinDots(r) == JoinDots(p) + "." + rest;
    SplitOfJoin(r);
    SplitBehind(p, rest);
  }

  lemma {:induction false} DotsRegroup(x: string, y: string, z: string)
    ensures (x + "." + y) + "." + z == x + "." + (y + "." + z)
  {
  }

  lemma {:induction false} HeadFirst(p: Path, more: Path)
    requires p != []
    ensures p + more == [p[0]] + (p[1..] + more)
  {
  }

  lemma {:induction false} SplitBehind(p: Path, rest: string)
    requires p != [] && DotFree(p)
    ensures SplitDots(JoinDots(p) + "." + rest) == p + SplitDots(rest)
    decreases |p|
  {
    if |p| == 1 {
      SplitFirst(p[0], rest);
    } else {
      SplitBehind(p[1..], rest);
      SplitFirst(p[0], JoinDots(p[1..]) + "." + rest);
      DotsRegroup(p[0], JoinDots(p[1..]), rest);
      HeadFirst(p, SplitDots(rest));
    }
  }

  ghost predicate KeptUnder(j: Json, key: string, known: set<string>, k: string, v: Json) {
    exists q :: q != [] && k == key + "." + JoinDots(q) && KeptAt(j, key, known, q, v)
  }

  /** What the walk leaves of the value at `p`, whose name is `key`: the rows at `key`
      and below it are what it keeps of that value. */
  lemma {:induction false} RowsOfValue(blob: Fields, known: set<string>, rows: Rows, p: Path, j: Json, key: string)
    requires PlainKeys(blob, "", known) && IsWalk(blob, "", known, rows)
    requires Reaches(blob, "", known, p) && Read(Obj(blob), p) == Some(j) && key == JoinDots(p)
    ensures NameOf("", p) == key
    ensures forall q, v :: KeptAt(j, key, known, q, v) ==>
      var k := if q == [] then key else key + "." + JoinDots(q);
      k in rows && rows[k] == v
    ensures forall k :: k in rows && IsUnder(k, key) ==> KeptUnder(j, key, known, k, rows[k])
  {
    ReachedIsPlain(blob, "", known, p);
    PlainName("", p);
    forall q, v | KeptAt(j, key, known, q, v)
      ensures var k := if q == [] then key else key + "." + JoinDots(q); k in rows && rows[k] == v
    {
      KeptBelow(blob, "", known, p, j, q, v);
      WalkIsExact(blob, "", known, rows, p + q, v);
      JoinOfConcat(p, q);
    }
    forall k | k in rows && IsUnder(k, key) ensures KeptUnder(j, key, known, k, rows[k]) {
      var q := RowBelowValue(blob, known, rows, p, j, k);
    }
  }

  lemma {:induction false} RowBelowValue(blob: Fields, known: set<string>, rows: Rows, p: Path, j: Json, k: string) returns (q: Path)
    requires PlainKeys(blob, "", known) && IsWalk(blob, "", known, rows) && PlainPath(p) && NameOf("", p) == JoinDots(p)
    requires Reaches(blob, "", known, p) && Read(Obj(blob), p) == Some(j) && k in rows && IsUnder(k, JoinDots(p))
    ensures q != [] && k == JoinDots(p) + "." + JoinDots(q) && KeptAt(j, JoinDots(p), known, q, rows[k])
  {
    var r :| k == NameOf("", r) && KeptIn(blob, "", known, r, rows[k]);
    KeptPathIsPlain(blob, "", known, r, rows[k]);
    PlainName("", r);
    UnderIsLonger(p, r);
    q := r[|p|..];
    assert r == p + q;
    KeptBelow(blob, "", known, p, j, q, rows[k]);
    JoinOfConcat(p, q);
  }

  lemma {:induction false} JoinOfConcat(p: Path, q: Path)
    requires p != []
    ensures JoinDots(p + q) == if q == [] then JoinDots(p) else JoinDots(p) + "." + JoinDots(q)
    decreases |p|
  {
    if q == [] {
      assert p + q == p;
    } else {
      assert (p + q)[1..] == p[1..] + q;
      if |p| > 1 {
        JoinOfConcat(p[1..], q);
        DotsRegroup(p[0], JoinDots(p[1..]), JoinDots(q));
      } else {
        assert p[1..] + q == q;
      }
    }
  }

  /** A dict under a known name: the walk leaves the one row that holds it whole, an
      empty dict too, and none below. */
  lemma {:induction false} KnownDictIsKept(blob: Fields, known: set<string>, rows: Rows, p: Path, j: Json)
    requires PlainKeys(blob, "", known) && IsWalk(blob, "", known, rows)
    requires Reaches(blob, "", known, p) && Read(Obj(blob), p) == Some(j) && JoinDots(p) in known
    ensures JoinDots(p) in rows && rows[JoinDots(p)] == j
    ensures forall k :: k in rows ==> !IsUnder(k, JoinDots(p))
  {
    RowsOfValue(blob, known, rows, p, j, JoinDots(p));
    assert KeptAt(j, JoinDots(p), known, [], j);
  }

  /** Start-up keeps a dict as it is when no row of its namespace is there. */
  lemma {:induction false} StartUpKeepsDict(s: Rows, old_: string, new_: string, nss: seq<Namespace>, keys: seq<seq<string>>,
                                            defaults: Rows, enabled: string -> bool, i: nat)
    requires Compatible(old_, new_, nss, defaults) && AllSelect(RenamePrefix(s, old_, new_), nss, keys)
    requires i < |nss| && nss[i].key in s
    requires forall k :: k in RenamePrefix(s, old_, new_) ==> !InNamespace(nss[i], k)
    ensures
      var once := StartUp(s, old_, new_, nss, keys, defaults, enabled);
      nss[i].key in once && once[nss[i].key] == s[nss[i].key]
  {
    RenameMovesAll(s, old_, new_);
    UntouchedDict(RenamePrefix(s, old_, new_), nss, keys, i);
  }

  lemma {:induction false} UntouchedDict(s: Rows, nss: seq<Namespace>, keys: seq<seq<string>>, i: nat)
    requires Independent(nss) && AllSelect(s, nss, keys) && i < |nss| && nss[i].key in s
    requires forall k :: k in s ==> !InNamespace(nss[i], k)
    ensures nss[i].key in RepairRows(s, nss, keys) && RepairRows(s, nss, keys)[nss[i].key] == s[nss[i].key]
  {
    UpdateIs(s, nss, keys, i);
    OrphansAre(s, nss, keys);
    assert RepairAt(s, nss, keys, i).orphans == {};
  }

  /** Below a prefix under which nothing is known the walk keeps exactly the leaves. */
  lemma {:induction false} WalkKeepsLeaves(t: Fields, prefix: string, known: set<string>, p: Path, v: Json)
    requires prefix != "" && forall n :: n in known ==> !IsUnder(n, prefix)
    ensures KeptIn(t, prefix, known, p, v) <==> LeafAt(Obj(t), p, v)
    decreases |p|
  {
    if p != [] && p[0] in t {
      var j, name := t[p[0]], Below(prefix, p[0]);
      assert IsUnder(name, prefix) && name !in known;
      assert Read(Obj(t), p) == Read(j, p[1..]);
      forall n | n in known ensures !IsUnder(n, name) {
        assert IsUnder(n, name) ==> IsUnder(n, prefix);
      }
      if j.Obj? {
        WalkKeepsLeaves(j.fields, name, known, p[1..], v);
      }
    }
  }

  lemma {:induction false} FragmentBelow(ns: Namespace, fragment: string)
    ensures FragmentOf(Names(ns), ns.key + "." + fragment) == Some(fragment)
  {
    assert (ns.key + "." + fragment)[|ns.key| + 1..] == fragment;
  }

  /** The table `s` has of this namespace just what the walk left. */
  ghost predicate StoredFrom(s: Rows, ns: Namespace, rows: Rows) {
    && (forall k :: k in rows && IsUnder(k, ns.key) ==> k in s && s[k] == rows[k])
    && (forall k :: k in s && InNamespace(ns, k) ==> k in rows && IsUnder(k, ns.key))
  }

  /** A dict under an unknown name: the rows that the walk leaves are its flattening. */
  lemma {:induction false} WalkIsFlattening(ns: Namespace, blob: Fields, known: set<string>, rows: Rows, p: Path, t: Fields, s: Rows)
    requires PlainKeys(blob, "", known) && IsWalk(blob, "", known, rows)
    requires Reaches(blob, "", known, p) && Read(Obj(blob), p) == Some(Obj(t)) && ns.key == JoinDots(p)
    requires ns.key !in known && forall n :: n in known ==> !IsUnder(n, ns.key)
    requires StoredFrom(s, ns, rows)
    ensures HoldsFlattened(s, ns, t)
  {
    RowsOfValue(blob, known, rows, p, Obj(t), ns.key);
    ReachedIsPlain(blob, "", known, p);
    KeyIsNotBlank(p);
    forall q, v ensures KeptAt(Obj(t), ns.key, known, q, v) <==> LeafAt(Obj(t), q, v) {
      WalkKeepsLeaves(t, ns.key, known, q, v);
    }
    forall q, v | LeafAt(Obj(t), q, v) ensures exists k :: RowOf(s, ns, k, q) && s[k] == v {
      FragmentBelow(ns, JoinDots(q));
      assert RowOf(s, ns, ns.key + "." + JoinDots(q), q);
    }
    forall k | k in s && InNamespace(ns, k) ensures exists q :: RowOf(s, ns, k, q) && LeafAt(Obj(t), q, s[k]) {
      var q :| q != [] && k == ns.key + "." + JoinDots(q) && KeptAt(Obj(t), ns.key, known, q, rows[k]);
      FragmentBelow(ns, JoinDots(q));
      assert RowOf(s, ns, k, q);
    }
    forall k, k', q | RowOf(s, ns, k, q) && RowOf(s, ns, k', q) ensures k == k' {
      RowName(ns, s, rows, k, q);
      RowName(ns, s, rows, k', q);
    }
  }

  lemma {:induction false} KeyIsNotBlank(p: Path)
    requires PlainPath(p)
    ensures JoinDots(p) != ""
  {
    assert p[0] in p;
  }

  lemma {:induction false} RowName(ns: Namespace, s: Rows, rows: Rows, k: string, q: Path)
    requires StoredFrom(s, ns, rows) && RowOf(s, ns, k, q)
    ensures k == ns.key + "." + JoinDots(q)
  {
    assert InNamespace(ns, k);
  }

  lemma {:induction false} PlainLeaf(t: Fields, prefix: string, known: set<string>, p: Path, v: Json)
    requires prefix != "" && forall n :: n in known ==> !IsUnder(n, prefix)
    requires PlainKeys(t, prefix, known) && LeafAt(Obj(t), p, v)
    ensures PlainPath(p)
  {
    WalkKeepsLeaves(t, prefix, known, p, v);
    KeptPathIsPlain(t, prefix, known, p, v);
  }

  lemma {:induction false} PlainBelow(blob: Fields, prefix: string, known: set<string>, p: Path, t: Fields)
    requires PlainKeys(blob, prefix, known) && Reaches(blob, prefix, known, p) && Read(Obj(blob), p) == Some(Obj(t))
    requires NameOf(prefix, p) !in known
    ensures PlainKeys(t, NameOf(prefix, p), known)
    decreases |p|
  {
    var name := Below(prefix, p[0]);
    assert Read(Obj(blob), p) == Read(blob[p[0]], p[1..]);
    if |p| > 1 {
      PlainBelow(blob[p[0]].fields, name, known, p[1..], t);
    } else {
      assert p[1..] == [];
      assert NameOf(name, []) == name;
    }
  }

  /** From the whole blob: a dict under an unknown name, which the walk takes apart, is
      put together again, in whatever order and however often its rows are returned,
      exactly when no dict inside is empty and every path is read back; of a plain dict
      every path is. */
  lemma {:induction false} RepairUndoesWalkIff(s: Rows, nss: seq<Namespace>, keys: seq<seq<string>>, i: nat,
                                               blob: Fields, known: set<string>, rows: Rows, p: Path, t: Fields)
    requires Independent(nss) && AllSelect(s, nss, keys) && i < |nss|
    requires PlainKeys(blob, "", known) && IsWalk(blob, "", known, rows)
    requires Reaches(blob, "", known, p) && Read(Obj(blob), p) == Some(Obj(t)) && nss[i].key == JoinDots(p)
    requires nss[i].key !in known && forall n :: n in known ==> !IsUnder(n, nss[i].key)
    requires StoredFrom(s, nss[i], rows) && DictOf(s, nss[i].key) == map[]
    ensures DictOf(RepairRows(s, nss, keys), nss[i].key) == t <==> AllFull(t) && PathsReturn(nss[i], t)
    ensures !nss[i].api ==> PathsReturn(nss[i], t)
    ensures PathsReturn(nss[i], t) ==> forall k :: k in RepairRows(s, nss, keys) ==> !InNamespace(nss[i], k)
  {
    WalkIsFlattening(nss[i], blob, known, rows, p, t, s);
    TableInvertsFlattenIff(s, nss, keys, i, t);
    ReachedIsPlain(blob, "", known, p);
    PlainName("", p);
    KeyIsNotBlank(p);
    PlainBelow(blob, "", known, p, t);
    forall q, v | LeafAt(Obj(t), q, v) ensures PlainPath(q) {
      PlainLeaf(t, nss[i].key, known, q, v);
    }
  }
}
