/**
 The key-value configuration store and what start-up does to it: rename a prefix,
 repair dicts that a migration flattened into rows, seed defaults.
 */
module ConfigStartup {
  import opened Prelude
  import opened ConfigTree

  // ---------------------------------------------------------------- dotted strings

  /** `s.split('.')` */
  function SplitDots(s: string): (r: Path)
    ensures r != []
  {
    if s == [] then [""]
    else
      var rest := SplitDots(s[1..]);
      if s[0] == '.' then [""] + rest else [[s[0]] + rest[0]] + rest[1..]
  }

  /** `'.'.join(path)` */
  function JoinDots(path: Path): string {
    if path == [] then "" else if |path| == 1 then path[0] else path[0] + "." + JoinDots(path[1..])
  }

  lemma {:induction false} JoinOfSplit(s: string)
    ensures JoinDots(SplitDots(s)) == s
    ensures forall part :: part in SplitDots(s) ==> '.' !in part
    decreases |s|
  {
    if s != [] {
      JoinOfSplit(s[1..]);
      var rest, all := SplitDots(s[1..]), SplitDots(s);
      assert s == [s[0]] + s[1..];
      if s[0] == '.' {
        assert all[1..] == rest;
        assert "" + "." + s[1..] == s;
      } else {
        assert all[1..] == rest[1..];
        if |rest| > 1 {
          assert all[0] + "." + JoinDots(rest[1..]) == [s[0]] + (rest[0] + "." + JoinDots(rest[1..]));
        }
        assert rest[0] in rest;
        forall part | part in all ensures '.' !in part {
          if part != all[0] {
            assert part in rest[1..] ==> part in rest;
          }
        }
      }
    }
  }

  // ---------------------------------------------------------------- API-config fragments

  const ApiConfigFields: seq<string> :=
    ["enable", "key", "prefix_id", "tags", "model_ids", "connection_type", "provider", "auth_type", "headers", "azure",
     "api_type", "api_version", "extra_params", "passthrough_params"]

  predicate IsDigits(s: string) {
    s != [] && forall i :: 0 <= i < |s| ==> '0' <= s[i] <= '9'
  }

  /** `marker` occurs in `s` at position `i`. */
  predicate OccursAt(s: string, marker: string, i: int) {
    0 <= i && i + |marker| <= |s| && s[i..i + |marker|] == marker
  }

  /** Some field's marker occurs at position `i`. */
  predicate MarkerAt(s: string, fields: seq<string>, i: int) {
    exists f :: f in fields && OccursAt(s, "." + f, i)
  }

  /** What the split of a fragment means: a numeric connection before the first dot,
      or everything before the rightmost marker. */
  ghost predicate IsSplit(fragment: string, r: Option<(string, Path)>) {
    var first := SplitDots(fragment)[0];
    var numeric := IsDigits(first) && |fragment| > |first| + 1;
    if numeric then r == Some((first, SplitDots(fragment[|first| + 1..])))
    else if r.Some? then
      exists i :: 0 < i < |fragment| && MarkerAt(fragment, ApiConfigFields, i)
        && (forall j :: j > i ==> !MarkerAt(fragment, ApiConfigFields, j))
        && r == Some((fragment[..i], SplitDots(fragment[i + 1..])))
    else forall j :: j > 0 ==> !MarkerAt(fragment, ApiConfigFields, j)
  }

  /** The first part ends where the first dot stands. */
  lemma {:induction false} FirstPart(s: string)
    ensures |SplitDots(s)[0]| <= |s| && s[..|SplitDots(s)[0]|] == SplitDots(s)[0]
    ensures |SplitDots(s)[0]| < |s| ==> s[|SplitDots(s)[0]|] == '.'
    decreases |s|
  {
    if s != [] && s[0] != '.' {
      FirstPart(s[1..]);
      var rest := SplitDots(s[1..])[0];
      assert s[..|rest| + 1] == [s[0]] + s[1..][..|rest|];
    }
  }

  /** The rightmost position up to `j` where a field's marker occurs, or -1. */
  function LastMarker(s: string, j: int): (r: int)
    ensures r == -1 || (0 <= r <= j && MarkerAt(s, ApiConfigFields, r))
    ensures forall i :: r < i <= j && i >= 0 ==> !MarkerAt(s, ApiConfigFields, i)
    decreases j + 1
  {
    if j < 0 then -1 else if MarkerAt(s, ApiConfigFields, j) then j else LastMarker(s, j - 1)
  }

  function SplitFragment(fragment: string): Option<(string, Path)> {
    var first := SplitDots(fragment)[0];
    if IsDigits(first) && |fragment| > |first| + 1 then Some((first, SplitDots(fragment[|first| + 1..])))
    else
      var best := LastMarker(fragment, |fragment| - 1);
      if best > 0 then Some((fragment[..best], SplitDots(fragment[best + 1..]))) else None
  }

  lemma {:induction false} SplitFragmentMeaning(fragment: string)
    ensures IsSplit(fragment, SplitFragment(fragment))
  {
    FirstPart(fragment);
    assert forall j :: j >= |fragment| ==> !MarkerAt(fragment, ApiConfigFields, j);
  }

  /** `s.rfind(marker)` */
  method RFind(s: string, marker: string) returns (r: int)
    ensures r == -1 || OccursAt(s, marker, r)
    ensures forall i :: i > r ==> !OccursAt(s, marker, i)
  {
    r := |s|;
    while r >= 0 && !OccursAt(s, marker, r)
      invariant -1 <= r <= |s|
      invariant forall i :: i > r ==> !OccursAt(s, marker, i)
    {
      r := r - 1;
    }
  }

  /** `_split_api_config_fragment`: one `rfind` for each field. */
  method SplitApiConfigFragment(fragment: string) returns (r: Option<(string, Path)>)
    ensures r == SplitFragment(fragment)
  {
    FirstPart(fragment);
    var first := SplitDots(fragment)[0];
    if IsDigits(first) && |fragment| > |first| + 1 {
      return Some((first, SplitDots(fragment[|first| + 1..])));
    }
    var best := -1;
    for k := 0 to |ApiConfigFields|
      invariant best == -1 || (0 <= best < |fragment| && MarkerAt(fragment, ApiConfigFields, best))
      invariant forall j, f :: j > best && f in ApiConfigFields[..k] ==> !OccursAt(fragment, "." + f, j)
    {
      var at := RFind(fragment, "." + ApiConfigFields[k]);
      if at > best {
        best := at;
      }
    }
    assert forall f :: f in ApiConfigFields ==> f in ApiConfigFields[..|ApiConfigFields|];
    assert best == LastMarker(fragment, |fragment| - 1);
    if best > 0 {
      r := Some((fragment[..best], SplitDots(fragment[best + 1..])));
    } else {
      r := None;
    }
  }

  lemma {:induction false} CutAtDot(s: string, n: nat)
    requires n < |s| && s[n] == '.'
    ensures s[..n] + "." + JoinDots(SplitDots(s[n + 1..])) == s
  {
    JoinOfSplit(s[n + 1..]);
    assert s == s[..n] + "." + s[n + 1..];
  }

  /** The split loses nothing: key, dot and joined path rebuild the fragment. */
  lemma {:induction false} SplitLosesNothing(fragment: string)
    requires SplitFragment(fragment).Some?
    ensures
      var (key, path) := SplitFragment(fragment).value;
      key + "." + JoinDots(path) == fragment && key != "" && path != []
  {
    FirstPart(fragment);
    var first := SplitDots(fragment)[0];
    if IsDigits(first) && |fragment| > |first| + 1 {
      CutAtDot(fragment, |first|);
    } else {
      var best := LastMarker(fragment, |fragment| - 1);
      MarkerIsDot(fragment, best);
      CutAtDot(fragment, best);
    }
  }

  lemma {:induction false} MarkerIsDot(s: string, i: int)
    requires MarkerAt(s, ApiConfigFields, i)
    ensures 0 <= i < |s| && s[i] == '.'
  {
    var f :| f in ApiConfigFields && OccursAt(s, "." + f, i);
    DotAt(s, f, i);
  }

  lemma {:induction false} DotAt(s: string, f: string, i: int)
    requires OccursAt(s, "." + f, i)
    ensures 0 <= i < |s| && s[i] == '.'
  {
    assert s[i..i + |"." + f|][0] == ("." + f)[0];
  }

  // ---------------------------------------------------------------- the store

  type Rows = map<string, Json>

  predicate IsUnder(key: string, prefix: string) {
    prefix + "." <= key
  }

  /** `f'{new_prefix}.{row.key.removeprefix(f"{old_prefix}.")}'` */
  function Renamed(key: string, old_: string, new_: string): string
    requires IsUnder(key, old_)
  {
    new_ + "." + key[|old_| + 1..]
  }

  /** Neither dotted prefix leads into the other. */
  predicate Unrelated(p: string, q: string) {
    !IsUnder(p + ".", q) && !IsUnder(q + ".", p)
  }

  lemma {:induction false} UnrelatedKeys(p: string, q: string, key: string)
    requires Unrelated(p, q) && IsUnder(key, p)
    ensures !IsUnder(key, q)
  {
  }

  // ---------------------------------------------------------------- rename_prefix

  function MovedKeys(s: Rows, old_: string, new_: string): set<string> {
    set k | k in s && IsUnder(k, old_) && Renamed(k, old_, new_) !in s :: Renamed(k, old_, new_)
  }

  /** Where a moved row was before. */
  function Origin(key: string, old_: string, new_: string): string {
    if |key| > |new_| then old_ + "." + key[|new_| + 1..] else old_
  }

  lemma {:induction false} OriginOfRenamed(key: string, old_: string, new_: string)
    requires IsUnder(key, old_)
    ensures Origin(Renamed(key, old_, new_), old_, new_) == key
    ensures IsUnder(Renamed(key, old_, new_), new_)
  {
    assert Renamed(key, old_, new_)[|new_| + 1..] == key[|old_| + 1..];
    assert key == old_ + "." + key[|old_| + 1..];
  }

  /** The rows after `rename_prefix`: a row whose new key is taken is dropped. */
  function RenamePrefix(s: Rows, old_: string, new_: string): Rows {
    (map k | k in s && !IsUnder(k, old_) :: s[k]) +
    (map k | k in MovedKeys(s, old_, new_) && Origin(k, old_, new_) in s :: s[Origin(k, old_, new_)])
  }

  /** No key is left under the old prefix, no other value changes, and every old row
      is found under its new key, or under the value that was there already. */
  lemma {:induction false} RenameMovesAll(s: Rows, old_: string, new_: string)
    requires Unrelated(old_, new_)
    ensures forall k :: k in RenamePrefix(s, old_, new_) ==> !IsUnder(k, old_)
    ensures forall k :: k in s && !IsUnder(k, old_) ==> k in RenamePrefix(s, old_, new_) && RenamePrefix(s, old_, new_)[k] == s[k]
    ensures forall k :: k in s && IsUnder(k, old_) ==>
      var n := Renamed(k, old_, new_);
      n in RenamePrefix(s, old_, new_) && RenamePrefix(s, old_, new_)[n] == if n in s then s[n] else s[k]
    ensures forall n :: n in RenamePrefix(s, old_, new_) && n !in s ==>
      exists k :: k in s && IsUnder(k, old_) && n == Renamed(k, old_, new_)
  {
    forall k | k in s && IsUnder(k, old_) ensures !IsUnder(Renamed(k, old_, new_), old_) {
      OriginOfRenamed(k, old_, new_);
      UnrelatedKeys(new_, old_, Renamed(k, old_, new_));
    }
    forall k | k in s && IsUnder(k, old_) ensures Origin(Renamed(k, old_, new_), old_, new_) == k {
      OriginOfRenamed(k, old_, new_);
    }
  }

  lemma {:induction false} RenameOfNothing(s: Rows, old_: string, new_: string)
    requires forall k :: k in s ==> !IsUnder(k, old_)
    ensures RenamePrefix(s, old_, new_) == s
  {
  }

  // ---------------------------------------------------------------- repair_flattened_dict_configs

  /** A dict-valued key, the other names its rows may have, and whether its dict is
      keyed by connection. */
  datatype Namespace = Namespace(key: string, aliases: seq<string>, api: bool)

  function FragmentOf(prefixes: seq<string>, key: string): Option<string> {
    if prefixes == [] then None
    else if IsUnder(key, prefixes[0]) then Some(key[|prefixes[0]| + 1..])
    else FragmentOf(prefixes[1..], key)
  }

  predicate InNamespace(ns: Namespace, key: string) {
    FragmentOf([ns.key] + ns.aliases, key).Some?
  }

  /** Where a row belongs in the dict; None if it is left alone. */
  function PathOf(ns: Namespace, key: string): (r: Option<Path>)
    ensures r.Some? ==> r.value != [] && InNamespace(ns, key)
    ensures r.Some? && ns.api ==> |r.value| >= 2
  {
    var fragment := FragmentOf([ns.key] + ns.aliases, key);
    if fragment.None? then None
    else if !ns.api then Some(SplitDots(fragment.value))
    else
      var split := SplitFragment(fragment.value);
      if split.None? then None else Some([split.value.0] + split.value.1)
  }

  /** The row goes into the dict as it stands: a connection that is not a dict takes none. */
  predicate Absorbs(ns: Namespace, dict: Fields, key: string) {
    var path := PathOf(ns, key);
    path.Some? && (ns.api && path.value[0] in dict ==> dict[path.value[0]].Obj?)
  }

  datatype Repair = Repair(dict: Fields, orphans: set<string>)

  /** The loop over the rows of one namespace. */
  function AbsorbRows(ns: Namespace, s: Rows, dict: Fields, keys: seq<string>): (r: Repair)
    requires forall k :: k in keys ==> k in s
    ensures forall k :: k in r.orphans ==> k in keys && InNamespace(ns, k)
    decreases |keys|
  {
    if keys == [] then Repair(dict, {})
    else
      var before := AbsorbRows(ns, s, dict, keys[..|keys| - 1]);
      var k := keys[|keys| - 1];
      if Absorbs(ns, before.dict, k)
      then Repair(Assign(before.dict, PathOf(ns, k).value, s[k]), before.orphans + {k})
      else before
  }

  function DictOf(s: Rows, key: string): Fields {
    DictAt(s, key)
  }

  /** What the queries of one namespace return: all its rows, and perhaps rows that
      only a LIKE wildcard brought in, in any order. */
  ghost predicate Selects(s: Rows, ns: Namespace, keys: seq<string>) {
    && (forall k :: k in keys ==> k in s)
    && forall k :: k in s && InNamespace(ns, k) ==> k in keys
  }

  /** All namespaces, `keys[i]` being the rows selected for `nss[i]`. */
  function RepairRows(s: Rows, nss: seq<Namespace>, keys: seq<seq<string>>): Rows
    requires |keys| == |nss| && forall i :: 0 <= i < |nss| ==> forall k :: k in keys[i] ==> k in s
  {
    (s + Updates(s, nss, keys)) - Orphans(s, nss, keys)
  }

  function Updates(s: Rows, nss: seq<Namespace>, keys: seq<seq<string>>): Rows
    requires |keys| == |nss| && forall i :: 0 <= i < |nss| ==> forall k :: k in keys[i] ==> k in s
    decreases |nss|
  {
    if nss == [] then map[]
    else
      var n := |nss| - 1;
      var r := AbsorbRows(nss[n], s, DictOf(s, nss[n].key), keys[n]);
      var rest := Updates(s, nss[..n], keys[..n]);
      if r.orphans == {} then rest else rest[nss[n].key := Obj(r.dict)]
  }

  function Orphans(s: Rows, nss: seq<Namespace>, keys: seq<seq<string>>): set<string>
    requires |keys| == |nss| && forall i :: 0 <= i < |nss| ==> forall k :: k in keys[i] ==> k in s
    decreases |nss|
  {
    if nss == [] then {}
    else
      var n := |nss| - 1;
      Orphans(s, nss[..n], keys[..n]) + AbsorbRows(nss[n], s, DictOf(s, nss[n].key), keys[n]).orphans
  }

  ghost predicate AllSelect(s: Rows, nss: seq<Namespace>, keys: seq<seq<string>>) {
    |keys| == |nss| && forall i :: 0 <= i < |nss| ==> Selects(s, nss[i], keys[i])
  }

  /** Namespaces with different keys, none of which lies inside a namespace. */
  ghost predicate Independent(nss: seq<Namespace>) {
    && (forall i, j :: 0 <= i < j < |nss| ==> nss[i].key != nss[j].key)
    && forall i, j :: 0 <= i < |nss| && 0 <= j < |nss| ==> !InNamespace(nss[j], nss[i].key)
  }

  ghost function RepairAt(s: Rows, nss: seq<Namespace>, keys: seq<seq<string>>, i: nat): Repair
    requires AllSelect(s, nss, keys) && i < |nss|
  {
    AbsorbRows(nss[i], s, DictOf(s, nss[i].key), keys[i])
  }

  lemma {:induction false} OrphansAre(s: Rows, nss: seq<Namespace>, keys: seq<seq<string>>)
    requires AllSelect(s, nss, keys)
    ensures forall i, k :: 0 <= i < |nss| && k in RepairAt(s, nss, keys, i).orphans ==> k in Orphans(s, nss, keys)
    ensures forall k :: k in Orphans(s, nss, keys) ==> exists i :: 0 <= i < |nss| && InNamespace(nss[i], k)
    decreases |nss|
  {
    if nss != [] {
      var n := |nss| - 1;
      OrphansAre(s, nss[..n], keys[..n]);
      forall i, k | 0 <= i < |nss| && k in RepairAt(s, nss, keys, i).orphans ensures k in Orphans(s, nss, keys) {
        if i < n {
          assert k in RepairAt(s, nss[..n], keys[..n], i).orphans;
        }
      }
    }
  }

  lemma {:induction false} UpdatedKeys(s: Rows, nss: seq<Namespace>, keys: seq<seq<string>>)
    requires AllSelect(s, nss, keys)
    ensures forall k :: k in Updates(s, nss, keys) ==> exists i :: 0 <= i < |nss| && k == nss[i].key
    decreases |nss|
  {
    if nss != [] {
      var n := |nss| - 1;
      UpdatedKeys(s, nss[..n], keys[..n]);
    }
  }

  lemma {:induction false} UpdatesStep(s: Rows, nss: seq<Namespace>, keys: seq<seq<string>>)
    requires AllSelect(s, nss, keys) && nss != []
    ensures
      var n := |nss| - 1;
      var r := RepairAt(s, nss, keys, n);
      AllSelect(s, nss[..n], keys[..n]) &&
      Updates(s, nss, keys) == var rest := Updates(s, nss[..n], keys[..n]); if r.orphans == {} then rest else rest[nss[n].key := Obj(r.dict)]
  {
  }

  lemma {:induction false} UpdateIs(s: Rows, nss: seq<Namespace>, keys: seq<seq<string>>, i: nat)
    requires AllSelect(s, nss, keys) && Independent(nss) && i < |nss|
    ensures
      var r := RepairAt(s, nss, keys, i);
      && (nss[i].key in Updates(s, nss, keys) <==> r.orphans != {})
      && (r.orphans != {} ==> Updates(s, nss, keys)[nss[i].key] == Obj(r.dict))
    decreases |nss|
  {
    var n := |nss| - 1;
    UpdatesStep(s, nss, keys);
    if i < n {
      assert nss[n].key != nss[i].key;
      assert nss[..n][i] == nss[i] && keys[..n][i] == keys[i];
      UpdateIs(s, nss[..n], keys[..n], i);
    } else {
      UpdatedKeys(s, nss[..n], keys[..n]);
    }
  }

  lemma {:induction false} UpdatesAre(s: Rows, nss: seq<Namespace>, keys: seq<seq<string>>)
    requires AllSelect(s, nss, keys) && Independent(nss)
    ensures forall i :: 0 <= i < |nss| ==>
      var r := RepairAt(s, nss, keys, i);
      && (nss[i].key in Updates(s, nss, keys) <==> r.orphans != {})
      && (r.orphans != {} ==> Updates(s, nss, keys)[nss[i].key] == Obj(r.dict))
    ensures forall k :: k in Updates(s, nss, keys) ==> exists i :: 0 <= i < |nss| && k == nss[i].key
  {
    UpdatedKeys(s, nss, keys);
    forall i | 0 <= i < |nss| {
      UpdateIs(s, nss, keys, i);
    }
  }

  // ---- one namespace

  lemma {:induction false} AbsorbingKeepsSkipping(ns: Namespace, dict: Fields, k: string, other: string, v: Json)
    requires Absorbs(ns, dict, k)
    ensures !Absorbs(ns, dict, other) ==> !Absorbs(ns, Assign(dict, PathOf(ns, k).value, v), other)
  {
  }

  /** A row that is left alone is one the finished dict still does not absorb. */
  lemma {:induction false} LeftAloneStays(ns: Namespace, s: Rows, dict: Fields, keys: seq<string>)
    requires forall k :: k in keys ==> k in s
    ensures
      var r := AbsorbRows(ns, s, dict, keys);
      forall k :: k in keys && k !in r.orphans ==> !Absorbs(ns, r.dict, k)
    decreases |keys|
  {
    if keys != [] {
      var front, k := keys[..|keys| - 1], keys[|keys| - 1];
      LeftAloneStays(ns, s, dict, front);
      var before := AbsorbRows(ns, s, dict, front);
      assert keys == front + [k];
      if Absorbs(ns, before.dict, k) {
        forall other {
          AbsorbingKeepsSkipping(ns, before.dict, k, other, s[k]);
        }
      }
    }
  }

  lemma {:induction false} NothingAbsorbed(ns: Namespace, s: Rows, dict: Fields, keys: seq<string>)
    requires forall k :: k in keys ==> k in s && !Absorbs(ns, dict, k)
    ensures AbsorbRows(ns, s, dict, keys) == Repair(dict, {})
    decreases |keys|
  {
    if keys != [] {
      NothingAbsorbed(ns, s, dict, keys[..|keys| - 1]);
    }
  }

  lemma {:induction false} OrphansMeanChange(ns: Namespace, s: Rows, dict: Fields, keys: seq<string>)
    requires forall k :: k in keys ==> k in s
    ensures
      var r := AbsorbRows(ns, s, dict, keys);
      r.orphans == {} ==> r.dict == dict
    decreases |keys|
  {
    if keys != [] {
      OrphansMeanChange(ns, s, dict, keys[..|keys| - 1]);
    }
  }

  // ---- all of them

  /** After a repair no namespace has a row that its dict would absorb. */
  ghost predicate Repaired(s: Rows, nss: seq<Namespace>) {
    forall i, k :: 0 <= i < |nss| && k in s ==> !Absorbs(nss[i], DictOf(s, nss[i].key), k)
  }

  lemma {:induction false} DictAfterRepair(s: Rows, nss: seq<Namespace>, keys: seq<seq<string>>, i: nat)
    requires AllSelect(s, nss, keys) && Independent(nss) && i < |nss|
    ensures DictOf(RepairRows(s, nss, keys), nss[i].key) == RepairAt(s, nss, keys, i).dict
  {
    UpdatesAre(s, nss, keys);
    OrphansAre(s, nss, keys);
    OrphansMeanChange(nss[i], s, DictOf(s, nss[i].key), keys[i]);
  }

  lemma {:induction false} RepairRepairs(s: Rows, nss: seq<Namespace>, keys: seq<seq<string>>)
    requires AllSelect(s, nss, keys) && Independent(nss)
    ensures Repaired(RepairRows(s, nss, keys), nss)
  {
    var s' := RepairRows(s, nss, keys);
    forall i, k | 0 <= i < |nss| && k in s' ensures !Absorbs(nss[i], DictOf(s', nss[i].key), k) {
      if InNamespace(nss[i], k) {
        UpdatesAre(s, nss, keys);
        OrphansAre(s, nss, keys);
        assert k in s;
        assert k in keys[i] && k !in RepairAt(s, nss, keys, i).orphans;
        DictAfterRepair(s, nss, keys, i);
        LeftAloneStays(nss[i], s, DictOf(s, nss[i].key), keys[i]);
      }
    }
  }

  lemma {:induction false} RepairedIsFixed(s: Rows, nss: seq<Namespace>, keys: seq<seq<string>>)
    requires AllSelect(s, nss, keys) && Repaired(s, nss)
    ensures Updates(s, nss, keys) == map[] && Orphans(s, nss, keys) == {}
    ensures RepairRows(s, nss, keys) == s
    decreases |nss|
  {
    if nss != [] {
      var n := |nss| - 1;
      NothingAbsorbed(nss[n], s, DictOf(s, nss[n].key), keys[n]);
      RepairedIsFixed(s, nss[..n], keys[..n]);
    }
  }

  /** Repairing twice is repairing once, whatever order the rows come in. */
  lemma {:induction false} RepairIsIdempotent(s: Rows, nss: seq<Namespace>, keys: seq<seq<string>>, keys': seq<seq<string>>)
    requires Independent(nss) && AllSelect(s, nss, keys) && AllSelect(RepairRows(s, nss, keys), nss, keys')
    ensures RepairRows(RepairRows(s, nss, keys), nss, keys') == RepairRows(s, nss, keys)
  {
    RepairRepairs(s, nss, keys);
    RepairedIsFixed(RepairRows(s, nss, keys), nss, keys');
  }

  // ---------------------------------------------------------------- seed_defaults

  /** Defaults for the enabled keys that have no row. */
  function SeedDefaults(s: Rows, defaults: Rows, enabled: string -> bool): Rows {
    s + map k | k in defaults && enabled(k) && k !in s :: defaults[k]
  }

  /** Seeding never overwrites a row. */
  lemma {:induction false} SeedKeepsRows(s: Rows, defaults: Rows, enabled: string -> bool)
    ensures
      var s' := SeedDefaults(s, defaults, enabled);
      && (forall k :: k in s ==> k in s' && s'[k] == s[k])
      && (forall k :: k in s' && k !in s ==> k in defaults && enabled(k) && s'[k] == defaults[k])
      && (forall k :: k in defaults && enabled(k) ==> k in s')
  {
  }

  // ---------------------------------------------------------------- start-up

  /** `seed_registered_defaults`, on a database whose rows come back as `keys`. */
  function StartUp(s: Rows, old_: string, new_: string, nss: seq<Namespace>, keys: seq<seq<string>>, defaults: Rows,
                   enabled: string -> bool): Rows
    requires |keys| == |nss| && forall i :: 0 <= i < |nss| ==> forall k :: k in keys[i] ==> k in RenamePrefix(s, old_, new_)
  {
    SeedDefaults(RepairRows(RenamePrefix(s, old_, new_), nss, keys), defaults, enabled)
  }

  /** The defaults lie outside the old prefix and the flattened namespaces, and the
      dict keys outside the old prefix. */
  ghost predicate Compatible(old_: string, new_: string, nss: seq<Namespace>, defaults: Rows) {
    && Unrelated(old_, new_)
    && Independent(nss)
    && (forall i :: 0 <= i < |nss| ==> !IsUnder(nss[i].key, old_))
    && (forall k :: k in defaults ==> !IsUnder(k, old_))
    && (forall i, k :: 0 <= i < |nss| && k in defaults ==> !InNamespace(nss[i], k))
  }

  /** A row that an absent dict does not absorb is absorbed by none. */
  lemma {:induction false} NeverAbsorbed(ns: Namespace, k: string, dict: Fields)
    requires !Absorbs(ns, map[], k)
    ensures !Absorbs(ns, dict, k)
  {
  }

  lemma {:induction false} SeedKeepsRepaired(s: Rows, nss: seq<Namespace>, defaults: Rows, enabled: string -> bool)
    requires Repaired(s, nss)
    requires forall i, k :: 0 <= i < |nss| && k in defaults ==> !InNamespace(nss[i], k)
    ensures Repaired(SeedDefaults(s, defaults, enabled), nss)
  {
    var s' := SeedDefaults(s, defaults, enabled);
    forall i, k | 0 <= i < |nss| && k in s' ensures !Absorbs(nss[i], DictOf(s', nss[i].key), k) {
      if k in s {
        assert !Absorbs(nss[i], DictOf(s, nss[i].key), k);
        if nss[i].key !in s {
          NeverAbsorbed(nss[i], k, DictOf(s', nss[i].key));
        }
      }
    }
  }

  /** After start-up no key is left under the old prefix. */
  lemma {:induction false} NothingUnderOldPrefix(s: Rows, old_: string, new_: string, nss: seq<Namespace>, keys: seq<seq<string>>,
                                                 defaults: Rows, enabled: string -> bool)
    requires Compatible(old_, new_, nss, defaults) && AllSelect(RenamePrefix(s, old_, new_), nss, keys)
    ensures forall k :: k in StartUp(s, old_, new_, nss, keys, defaults, enabled) ==> !IsUnder(k, old_)
  {
    RenameMovesAll(s, old_, new_);
    UpdatesAre(RenamePrefix(s, old_, new_), nss, keys);
  }

  /** Starting up again changes nothing, in whatever order the rows are returned
      either time. */
  lemma {:induction false} StartUpIsIdempotent(s: Rows, old_: string, new_: string, nss: seq<Namespace>, keys: seq<seq<string>>,
                                               keys': seq<seq<string>>, defaults: Rows, enabled: string -> bool)
    requires Compatible(old_, new_, nss, defaults) && AllSelect(RenamePrefix(s, old_, new_), nss, keys)
    requires
      var once := StartUp(s, old_, new_, nss, keys, defaults, enabled);
      AllSelect(RenamePrefix(once, old_, new_), nss, keys')
    ensures
      var once := StartUp(s, old_, new_, nss, keys, defaults, enabled);
      StartUp(once, old_, new_, nss, keys', defaults, enabled) == once
  {
    var renamed := RenamePrefix(s, old_, new_);
    var repaired := RepairRows(renamed, nss, keys);
    var once := SeedDefaults(repaired, defaults, enabled);
    NothingUnderOldPrefix(s, old_, new_, nss, keys, defaults, enabled);
    RenameOfNothing(once, old_, new_);
    RepairRepairs(renamed, nss, keys);
    SeedKeepsRepaired(repaired, nss, defaults, enabled);
    RepairedIsFixed(once, nss, keys');
    SeedOfSeeded(repaired, defaults, enabled);
  }

  lemma {:induction false} SeedOfSeeded(s: Rows, defaults: Rows, enabled: string -> bool)
    ensures SeedDefaults(SeedDefaults(s, defaults, enabled), defaults, enabled) == SeedDefaults(s, defaults, enabled)
  {
  }

  /** What start-up keeps: a row outside the old prefix and the namespaces keeps its
      value, whatever the defaults say. */
  lemma {:induction false} StartUpKeepsRows(s: Rows, old_: string, new_: string, nss: seq<Namespace>, keys: seq<seq<string>>,
                                            defaults: Rows, enabled: string -> bool, k: string)
    requires Unrelated(old_, new_) && Independent(nss) && AllSelect(RenamePrefix(s, old_, new_), nss, keys)
    requires k in s && !IsUnder(k, old_)
    requires forall i :: 0 <= i < |nss| ==> k != nss[i].key && !InNamespace(nss[i], k)
    ensures
      var once := StartUp(s, old_, new_, nss, keys, defaults, enabled);
      k in once && once[k] == s[k]
  {
    RenameMovesAll(s, old_, new_);
    RepairKeepsRow(RenamePrefix(s, old_, new_), nss, keys, k);
  }

  lemma {:induction false} RepairKeepsRow(s: Rows, nss: seq<Namespace>, keys: seq<seq<string>>, k: string)
    requires Independent(nss) && AllSelect(s, nss, keys) && k in s
    requires forall i :: 0 <= i < |nss| ==> k != nss[i].key && !InNamespace(nss[i], k)
    ensures k in RepairRows(s, nss, keys) && RepairRows(s, nss, keys)[k] == s[k]
  {
    UpdatedKeys(s, nss, keys);
    OrphansAre(s, nss, keys);
  }

  // ---------------------------------------------------------------- the loops over the table

  class ConfigTable {
    var rows: Rows

    constructor (s: Rows)
      ensures rows == s
    {
      rows := s;
    }

    /** `seed_defaults` */
    method Seed(defaults: Rows, enabled: string -> bool)
      modifies this
      ensures rows == SeedDefaults(old(rows), defaults, enabled)
    {
      var rest := defaults.Keys;
      while rest != {}
        invariant rest <= defaults.Keys
        invariant rows == SeedDefaults(old(rows), map k | k in defaults && k !in rest :: defaults[k], enabled)
        decreases rest
      {
        var k :| k in rest;
        if enabled(k) && k !in rows {
          rows := rows[k := defaults[k]];
        }
        rest := rest - {k};
      }
      assert (map k | k in defaults && k !in rest :: defaults[k]) == defaults;
    }

    /** The inner loop of the repair: the rows of one namespace, in the order returned. */
    method AbsorbNamespace(ns: Namespace, keys: seq<string>) returns (r: Repair)
      requires forall k :: k in keys ==> k in rows
      ensures r == AbsorbRows(ns, rows, DictOf(rows, ns.key), keys)
    {
      r := Repair(DictOf(rows, ns.key), {});
      for n := 0 to |keys|
        invariant r == AbsorbRows(ns, rows, DictOf(rows, ns.key), keys[..n])
      {
        assert keys[..n + 1][..n] == keys[..n];
        if Absorbs(ns, r.dict, keys[n]) {
          r := Repair(Assign(r.dict, PathOf(ns, keys[n]).value, rows[keys[n]]), r.orphans + {keys[n]});
        }
      }
      assert keys[..|keys|] == keys;
    }

    /** `repair_flattened_dict_configs`, `keys[i]` being what the queries for `nss[i]` return. */
    method RepairFlattened(nss: seq<Namespace>, keys: seq<seq<string>>)
      requires |keys| == |nss| && forall i :: 0 <= i < |nss| ==> forall k :: k in keys[i] ==> k in rows
      modifies this
      ensures rows == RepairRows(old(rows), nss, keys)
    {
      var updates: Rows := map[];
      var orphans: set<string> := {};
      for n := 0 to |nss|
        invariant rows == old(rows)
        invariant updates == Updates(rows, nss[..n], keys[..n])
        invariant orphans == Orphans(rows, nss[..n], keys[..n])
      {
        var r := AbsorbNamespace(nss[n], keys[n]);
        assert nss[..n + 1][..n] == nss[..n] && keys[..n + 1][..n] == keys[..n];
        if r.orphans != {} {
          updates := updates[nss[n].key := Obj(r.dict)];
        }
        orphans := orphans + r.orphans;
      }
      assert nss[..|nss|] == nss && keys[..|nss|] == keys;
      rows := (rows + updates) - orphans;
    }
  }
}
