/** createOrganizationMembershipIndex: stable-id matching of legacy department paths. */
module OrganizationIndex {
  import opened Wrappers
  import opened Text
  import opened Organization

  type Path = seq<string>

  const SEPARATOR: char := '\U{1f}'

  // ----- Canonical paths -----

  /** Parts are trimmed, empty ones dropped. */
  function Normalized(path: Path): Path {
    if path == [] then []
    else Normalized(path[..|path| - 1]) + (if Trim(path[|path| - 1]) != "" then [Trim(path[|path| - 1])] else [])
  }

  /** Adjacent duplicates are dropped. */
  function WithoutRepeats(path: Path): Path {
    if |path| <= 1 then path
    else WithoutRepeats(path[..|path| - 1]) + (if path[|path| - 1] != path[|path| - 2] then [path[|path| - 1]] else [])
  }

  function Canonical(path: Path): Path {
    WithoutRepeats(Normalized(path))
  }

  function Join(path: Path): string
    decreases |path|, 1
  {
    if path == [] then "" else path[0] + JoinRest(path)
  }

  /** What follows the first part. */
  function JoinRest(path: Path): string
    requires path != []
    decreases |path|, 0
  {
    if |path| == 1 then "" else [SEPARATOR] + Join(path[1..])
  }

  function PathKey(path: Path): string {
    Join(Canonical(path))
  }

  /** Parts a key can be taken apart into again: non-empty, without the separator. */
  predicate Plain(path: Path) {
    forall p <- path :: p != "" && SEPARATOR !in p
  }

  /** Joined plain parts can be taken apart in one way only. */
  lemma {:induction false} JoinIsInjective(a: Path, b: Path)
    requires Plain(a) && Plain(b) && Join(a) == Join(b)
    ensures a == b
    decreases |a|
  {
    JoinNonEmpty(a);
    JoinNonEmpty(b);
    if a != [] {
      assert a[0] in a && b[0] in b;
      FirstPart(a[0], JoinRest(a), b[0], JoinRest(b));
      if |a| > 1 {
        RestIsPlain(a);
        RestIsPlain(b);
        JoinIsInjective(a[1..], b[1..]);
      }
      assert a == [a[0]] + a[1..] && b == [b[0]] + b[1..];
    }
  }

  lemma RestIsPlain(a: Path)
    requires Plain(a) && |a| > 1
    ensures Plain(a[1..]) && JoinRest(a)[1..] == Join(a[1..])
  {
    assert forall p <- a[1..] :: p in a;
  }

  lemma JoinNonEmpty(a: Path)
    requires Plain(a)
    ensures Join(a) == "" <==> a == []
  {
    if a != [] {
      assert a[0] in a;
    }
  }

  /** The first separator marks where the first part ends. */
  lemma FirstSeparator(x: string, r: string)
    requires SEPARATOR !in x && (r == "" || r[0] == SEPARATOR)
    ensures forall i :: 0 <= i < |x| ==> (x + r)[i] != SEPARATOR
    ensures |x| == |x + r| || (x + r)[|x|] == SEPARATOR
  {
    forall i | 0 <= i < |x| ensures (x + r)[i] != SEPARATOR {
      assert (x + r)[i] == x[i];
    }
  }

  lemma FirstPart(x: string, r: string, y: string, s: string)
    requires SEPARATOR !in x && SEPARATOR !in y && x + r == y + s
    requires (r == "" || r[0] == SEPARATOR) && (s == "" || s[0] == SEPARATOR)
    ensures x == y && r == s
  {
    var whole := x + r;
    FirstSeparator(x, r);
    FirstSeparator(y, s);
    assert |x| == |y|;
    assert x == whole[..|x|] == y && r == whole[|x|..] == s;
  }

  lemma {:induction false} NormalizedIsPlain(path: Path)
    requires forall p <- path :: SEPARATOR !in p
    ensures Plain(Normalized(path))
  {
    if path != [] {
      var init, last := path[..|path| - 1], path[|path| - 1];
      assert path == init + [last];
      assert last in path;
      NormalizedIsPlain(init);
      var _, _ := TrimIsCore(last);
    }
  }

  lemma {:induction false} WithoutRepeatsKeepsParts(path: Path)
    ensures forall p <- WithoutRepeats(path) :: p in path
  {
    if |path| > 1 {
      var init := path[..|path| - 1];
      WithoutRepeatsKeepsParts(init);
      assert path == init + [path[|path| - 1]];
    }
  }

  /** Without the separator inside names, keys are equal exactly when canonical paths are. */
  lemma KeysAreCanonicalPaths(a: Path, b: Path)
    requires forall p <- a :: SEPARATOR !in p
    requires forall p <- b :: SEPARATOR !in p
    ensures PathKey(a) == PathKey(b) <==> Canonical(a) == Canonical(b)
  {
    NormalizedIsPlain(a);
    NormalizedIsPlain(b);
    WithoutRepeatsKeepsParts(Normalized(a));
    WithoutRepeatsKeepsParts(Normalized(b));
    if PathKey(a) == PathKey(b) {
      JoinIsInjective(Canonical(a), Canonical(b));
    }
  }

  // ----- What a canonical path is -----

  lemma {:induction false} NormalizedParts(a: Path, b: Path)
    ensures Normalized(a + b) == Normalized(a) + Normalized(b)
    decreases |b|
  {
    hide Trim;
    if b == [] {
      assert a + b == a;
    } else {
      assert (a + b)[..|a + b| - 1] == a + b[..|b| - 1] && (a + b)[|a + b| - 1] == b[|b| - 1];
      NormalizedParts(a, b[..|b| - 1]);
    }
  }

  lemma NormalizedPart(x: string)
    ensures Normalized([x]) == if Trim(x) != "" then [Trim(x)] else []
  {
    hide Trim;
    assert [x][..0] == [];
    assert Normalized([]) == [];
  }

  lemma {:induction false} RepeatIsDropped(a: Path, x: string, b: Path)
    ensures WithoutRepeats(a + [x, x] + b) == WithoutRepeats(a + [x] + b)
    decreases |b|
  {
    var long, short := a + [x, x] + b, a + [x] + b;
    if b == [] {
      assert long[..|long| - 1] == short && long[|long| - 1] == long[|long| - 2];
    } else {
      var c := b[..|b| - 1];
      RepeatIsDropped(a, x, c);
      assert long[..|long| - 1] == a + [x, x] + c && short[..|short| - 1] == a + [x] + c;
      assert long[|long| - 1] == short[|short| - 1] && long[|long| - 2] == short[|short| - 2];
    }
  }

  /** White space around a part, a blank part and a part repeated in place make no difference. */
  lemma CanonicalIgnores(a: Path, x: string, y: string, b: Path)
    ensures Trim(x) == Trim(y) ==> Canonical(a + [x] + b) == Canonical(a + [y] + b)
    ensures Trim(x) == Trim(y) ==> Canonical(a + [x, y] + b) == Canonical(a + [x] + b)
    ensures Trim(x) == "" ==> Canonical(a + [x] + b) == Canonical(a + b)
  {
    hide Trim, Normalized, WithoutRepeats;
    NormalizedParts(a + [x], b);
    NormalizedParts(a, [x]);
    NormalizedParts(a + [y], b);
    NormalizedParts(a, [y]);
    NormalizedParts(a, b);
    NormalizedPart(x);
    NormalizedPart(y);
    assert a + [x, y] + b == (a + [x]) + [y] + b;
    NormalizedParts(a + [x] + [y], b);
    NormalizedParts(a + [x], [y]);
    if Trim(x) == "" {
      assert Normalized(a + [x] + b) == Normalized(a) + Normalized(b);
      assert Trim(y) == "" ==> Normalized(a + [x, y] + b) == Normalized(a) + Normalized(b);
    } else if Trim(x) == Trim(y) {
      RepeatIsDropped(Normalized(a), Trim(x), Normalized(b));
      assert Normalized(a + [x, y] + b) == Normalized(a) + [Trim(x), Trim(x)] + Normalized(b);
      assert Normalized(a + [x] + b) == Normalized(a) + [Trim(x)] + Normalized(b);
    }
  }

  /** Nothing else does: a path of trimmed parts, none blank and no two neighbours equal, is canonical as it is. */
  lemma {:induction false} CanonicalKeeps(path: Path)
    requires forall p <- path :: p != "" && Trimmed(p)
    requires forall i :: 0 < i < |path| ==> path[i - 1] != path[i]
    ensures Normalized(path) == path && WithoutRepeats(path) == path && Canonical(path) == path
  {
    if path != [] {
      var init, last := path[..|path| - 1], path[|path| - 1];
      assert path == init + [last] && last in path && forall p <- init :: p in path;
      CanonicalKeeps(init);
      TrimKeeps(last);
    }
  }

  lemma TrimKeeps(s: string)
    requires Trimmed(s)
    ensures Trim(s) == s
  {
    if s != "" {
      var i, j := TrimIsCore(s);
      assert i == 0 && j == |s|;
    }
  }

  // ----- The definition -----

  /** Names from the last unit met down to the first. */
  function Names(m: Units, ids: seq<Id>): Path
    requires forall x <- ids :: x in m
  {
    if ids == [] then [] else [m[ids[|ids| - 1]].name] + Names(m, ids[..|ids| - 1])
  }

  /** The path of a unit: the names of everything it reaches, topmost first. */
  function PathOf(m: Units, id: Id): Path {
    Normalized(Names(m, Walk(m, id, {})))
  }

  function Depth(m: Units, id: Id): nat {
    |PathOf(m, id)|
  }

  function IdsWithKey(units: seq<Unit>, m: Units, key: string): seq<Id> {
    if units == [] then [] else (
      var id := units[|units| - 1].id;
      IdsWithKey(units[..|units| - 1], m, key) + (if PathKey(PathOf(m, id)) == key then [id] else [])
    )
  }

  /** The unit at this place is deeper than every other candidate. */
  ghost predicate IsDeepest(m: Units, candidates: seq<Id>, i: nat) {
    i < |candidates| && forall j :: 0 <= j < |candidates| && j != i ==> Depth(m, candidates[j]) < Depth(m, candidates[i])
  }

  /** Among the units with this canonical path there is one deepest, and it lies in the organisation. */
  ghost predicate Belongs(units: seq<Unit>, path: Path, organization: Id) {
    var m := ById(units);
    exists u <- units ::
      && PathKey(PathOf(m, u.id)) == PathKey(path)
      && (forall v <- units :: v != u && PathKey(PathOf(m, v.id)) == PathKey(path) ==> Depth(m, v.id) < Depth(m, u.id))
      && Reaches(m, u.id, organization)
  }

  /** A path with a part repeated in place belongs to the same organisations. */
  lemma RepeatBelongsAlike(units: seq<Unit>, a: Path, part: string, b: Path, organization: Id)
    ensures Belongs(units, a + [part, part] + b, organization) <==> Belongs(units, a + [part] + b, organization)
  {
    hide Canonical, Join, PathOf, Reaches;
    CanonicalIgnores(a, part, part, b);
  }

  /** Where a walk does not come to z, it makes no difference that z was met before. */
  lemma {:induction false} WalkPast(m: Units, id: Id, visited: set<Id>, z: Id)
    requires visited <= m.Keys && z in m && z !in Walk(m, id, visited)
    ensures Walk(m, id, visited + {z}) == Walk(m, id, visited)
    decreases |m.Keys - visited|
  {
    if id in m && id !in visited && m[id].parent.Some? {
      SmallerSet(m.Keys - (visited + {id}), m.Keys - visited);
      WalkPast(m, m[id].parent.value, visited + {id}, z);
      assert visited + {z} + {id} == visited + {id} + {z};
    }
  }

  lemma {:induction false} NamesAbove(m: Units, id: Id, ids: seq<Id>)
    requires id in m && forall x <- ids :: x in m
    ensures Names(m, [id] + ids) == Names(m, ids) + [m[id].name]
    decreases |ids|
  {
    if ids == [] {
      assert [id] + ids == [id] && [id][..0] == [];
    } else {
      var init, last := ids[..|ids| - 1], ids[|ids| - 1];
      NamesAbove(m, id, init);
      assert ([id] + ids)[..|ids|] == [id] + init && ([id] + ids)[|ids|] == last && last in ids;
    }
  }

  /** A path is the parent's path and the unit's own name, trimmed, if there is one; a unit without a parent, or one whose
      parent is missing, has its name alone. */
  lemma PathOfChild(m: Units, id: Id)
    requires id in m
    ensures var own := if Trim(m[id].name) != "" then [Trim(m[id].name)] else [];
      if m[id].parent.Some? && m[id].parent.value in m
      then !Reaches(m, m[id].parent.value, id) ==> PathOf(m, id) == PathOf(m, m[id].parent.value) + own
      else PathOf(m, id) == own
  {
    hide Trim, Reaches;
    var above := if m[id].parent.Some? then Walk(m, m[id].parent.value, {id}) else [];
    assert {} + {id} == {id};
    assert Walk(m, id, {}) == [id] + above;
    NamesAbove(m, id, above);
    NormalizedParts(Names(m, above), [m[id].name]);
    NormalizedPart(m[id].name);
    if m[id].parent.Some? && m[id].parent.value in m {
      WalkIsReachability(m, m[id].parent.value, id);
      if !Reaches(m, m[id].parent.value, id) {
        WalkPast(m, m[id].parent.value, {}, id);
      }
    } else {
      assert above == [];
      assert Names(m, above) == [] && Normalized([]) == [];
    }
  }

  // ----- The loop up the links -----

  /** The parent, if there is such a unit. */
  function Next(m: Units, id: Id): Option<Id>
    requires id in m
  {
    if m[id].parent.Some? && m[id].parent.value in m then m[id].parent else None
  }

  /** What is still to be met. */
  function Onward(m: Units, current: Option<Id>, visited: set<Id>): seq<Id>
    requires visited <= m.Keys
  {
    if current.Some? then Walk(m, current.value, visited) else []
  }

  lemma OnwardStep(m: Units, id: Id, visited: set<Id>)
    requires Keyed(m) && visited <= m.Keys && id in m && id !in visited
    ensures m[id].id == id
    ensures Onward(m, Some(id), visited) == [id] + Onward(m, Next(m, id), visited + {id})
    ensures |m.Keys - (visited + {id})| < |m.Keys - visited|
  {
    assert m.Keys - (visited + {id}) < m.Keys - visited;
    SmallerSet(m.Keys - (visited + {id}), m.Keys - visited);
    if m[id].parent.Some? {
      assert m[id].parent.value !in m ==> Walk(m, m[id].parent.value, visited + {id}) == [];
    }
  }

  lemma MeetOne(whole: seq<Id>, met: seq<Id>, id: Id, rest: seq<Id>)
    requires whole == met + ([id] + rest)
    ensures whole == (met + [id]) + rest && (met + [id])[..|met|] == met
  {
  }

  // ----- The one deepest -----

  ghost predicate IsTop(lengths: seq<nat>, i: nat) {
    i < |lengths| && forall j :: 0 <= j < |lengths| && j != i ==> lengths[j] < lengths[i]
  }

  /** Math.max(...lengths) */
  method Maximum(lengths: seq<nat>) returns (max: nat)
    requires lengths != []
    ensures IsMaximum(lengths, max)
  {
    max := lengths[0];
    for k := 1 to |lengths|
      invariant IsMaximum(lengths[..k], max)
    {
      assert forall j :: 0 <= j < k ==> lengths[..k + 1][j] == lengths[..k][j];
      assert lengths[..k + 1][k] == lengths[k];
      max := if lengths[k] > max then lengths[k] else max;
    }
    assert lengths[..|lengths|] == lengths;
  }

  ghost predicate IsMaximum(lengths: seq<nat>, max: nat) {
    (exists j :: 0 <= j < |lengths| && lengths[j] == max) && forall j :: 0 <= j < |lengths| ==> lengths[j] <= max
  }

  /** The places with this length. */
  function Places(lengths: seq<nat>, level: nat): (places: seq<nat>)
    ensures forall k :: 0 <= k < |places| ==> places[k] < |lengths| && lengths[places[k]] == level
    ensures |places| >= 2 ==> places[0] < places[1]
  {
    if lengths == [] then []
    else
      var n := |lengths| - 1;
      var places := Places(lengths[..n], level);
      assert forall k :: 0 <= k < |places| ==> places[k] < n && lengths[places[k]] == level;
      if lengths[n] == level then places + [n] else places
  }

  /** What is not kept is not on the level. */
  lemma {:induction false} NotKept(lengths: seq<nat>, level: nat, j: nat)
    requires j < |lengths|
    ensures var places := Places(lengths, level);
      |places| == 0 || (|places| == 1 && j != places[0]) ==> lengths[j] != level
  {
    if j < |lengths| - 1 {
      NotKept(lengths[..|lengths| - 1], level, j);
    }
  }

  /** Filtering for the maximum keeps one place exactly when that place is deeper than all others. */
  lemma OnlyDeepest(lengths: seq<nat>, max: nat)
    requires IsMaximum(lengths, max)
    ensures var places := Places(lengths, max);
      if |places| == 1 then IsTop(lengths, places[0]) else forall i: nat :: !IsTop(lengths, i)
  {
    var places := Places(lengths, max);
    forall j: nat | j < |lengths|
      ensures |places| == 0 || (|places| == 1 && j != places[0]) ==> lengths[j] != max
    {
      NotKept(lengths, max, j);
    }
    if |places| >= 2 {
      forall i: nat ensures !IsTop(lengths, i) {
        var other := if i == places[0] then places[1] else places[0];
        assert other != i && lengths[other] == max;
      }
    }
  }

  /** What the candidates' lengths say is what their paths say. */
  lemma TopIsDeepest(m: Units, candidates: seq<Id>, lengths: seq<nat>, i: nat)
    requires |lengths| == |candidates| && forall j :: 0 <= j < |lengths| ==> lengths[j] == Depth(m, candidates[j])
    ensures IsTop(lengths, i) <==> IsDeepest(m, candidates, i)
  {
  }

  // ----- The index -----

  function Bucket(m: map<string, seq<Id>>, key: string): seq<Id> {
    if key in m then m[key] else []
  }

  /** Every key leads to exactly the units with that key, in row order. */
  ghost predicate Indexed(index: map<string, seq<Id>>, units: seq<Unit>, m: Units) {
    forall key :: Bucket(index, key) == IdsWithKey(units, m, key)
  }

  lemma IndexOne(index: map<string, seq<Id>>, units: seq<Unit>, m: Units, n: nat, key: string)
    requires n < |units| && Indexed(index, units[..n], m) && key == PathKey(PathOf(m, units[n].id))
    ensures Indexed(index[key := Bucket(index, key) + [units[n].id]], units[..n + 1], m)
  {
    hide PathKey, PathOf;
    assert units[..n + 1][..n] == units[..n];
    var grown := index[key := Bucket(index, key) + [units[n].id]];
    forall k ensures Bucket(grown, k) == IdsWithKey(units[..n + 1], m, k) {
      assert Bucket(grown, k) == Bucket(index, k) + (if k == key then [units[n].id] else []);
    }
  }

  lemma IndexNone(units: seq<Unit>, m: Units)
    ensures Indexed(map[], units[..0], m)
  {
  }

  class MembershipIndex {
    const units: seq<Unit>
    const unitById: Units
    /** The memo of pathFor. */
    var pathById: map<Id, Path>
    var idsByCanonicalPath: map<string, seq<Id>>

    ghost predicate CacheIsRight()
      reads this
    {
      unitById == ById(units) && Keyed(unitById) && forall k <- pathById :: pathById[k] == PathOf(unitById, k)
    }

    ghost predicate Valid()
      reads this
    {
      CacheIsRight() && Indexed(idsByCanonicalPath, units, unitById)
    }

    constructor (units: seq<Unit>)
      ensures Valid() && this.units == units
    {
      this.units := units;
      unitById := ById(units);
      pathById, idsByCanonicalPath := map[], map[];
      new;
      hide PathKey, PathOf, Indexed, ById;
      ByIdHolds(units);
      IndexNone(units, unitById);
      for n := 0 to |units|
        invariant CacheIsRight() && this.units == units
        invariant Indexed(idsByCanonicalPath, units[..n], unitById)
      {
        var path := PathFor(units[n].id);
        var key := PathKey(path);
        IndexOne(idsByCanonicalPath, units, unitById, n, key);
        idsByCanonicalPath := idsByCanonicalPath[key := Bucket(idsByCanonicalPath, key) + [units[n].id]];
      }
      assert units[..|units|] == units;
    }

    /** pathFor: the memoised walk gives what the uncached walk gives. */
    method PathFor(id: Id) returns (path: Path)
      requires CacheIsRight()
      modifies this`pathById
      ensures CacheIsRight() && path == PathOf(unitById, id) && |path| == Depth(unitById, id)
    {
      if id in pathById {
        return pathById[id];
      }
      var names := NamesAbove(id);
      path := Normalized(names);
      pathById := pathById[id := path];
    }

    /** The loop of pathFor: it ends on any parent graph. */
    method NamesAbove(id: Id) returns (names: Path)
      requires Keyed(unitById)
      ensures names == Names(unitById, Walk(unitById, id, {}))
    {
      names := [];
      var visited: set<Id> := {};
      var current := if id in unitById then Some(id) else None;
      ghost var met: seq<Id> := [];
      ghost var whole := Walk(unitById, id, {});
      while current.Some? && current.value !in visited
        invariant visited <= unitById.Keys && (current.Some? ==> current.value in unitById)
        invariant forall x <- met :: x in unitById
        invariant names == Names(unitById, met)
        invariant whole == met + Onward(unitById, current, visited)
        decreases |unitById.Keys - visited|
      {
        OnwardStep(unitById, current.value, visited);
        MeetOne(whole, met, current.value, Onward(unitById, Next(unitById, current.value), visited + {current.value}));
        var unit := unitById[current.value];
        met := met + [current.value];
        visited := visited + {current.value};
        names := [unit.name] + names;
        current := Next(unitById, unit.id);
      }
      assert whole == met;
    }

    /** isDescendantOrSelf */
    method IsDescendantOrSelf(unitId: Id, ancestorId: Id) returns (r: bool)
      requires Keyed(unitById)
      ensures r <==> Reaches(unitById, unitId, ancestorId)
    {
      var visited: set<Id> := {};
      var current := if unitId in unitById then Some(unitId) else None;
      WalkIsReachability(unitById, unitId, ancestorId);
      while current.Some? && current.value !in visited
        invariant visited <= unitById.Keys && (current.Some? ==> current.value in unitById)
        invariant ancestorId in Walk(unitById, unitId, {}) <==> ancestorId in Onward(unitById, current, visited)
        decreases |unitById.Keys - visited|
      {
        OnwardStep(unitById, current.value, visited);
        if current.value == ancestorId {
          return true;
        }
        visited := visited + {current.value};
        current := Next(unitById, current.value);
      }
      r := false;
    }

    /** The candidates' path lengths. */
    method Lengths(candidates: seq<Id>) returns (lengths: seq<nat>)
      requires CacheIsRight()
      modifies this`pathById
      ensures CacheIsRight()
      ensures |lengths| == |candidates| && forall j :: 0 <= j < |lengths| ==> lengths[j] == Depth(unitById, candidates[j])
    {
      lengths := [];
      for n := 0 to |candidates|
        invariant CacheIsRight()
        invariant |lengths| == n && forall j :: 0 <= j < n ==> lengths[j] == Depth(unitById, candidates[j])
      {
        var p := PathFor(candidates[n]);
        lengths := lengths + [|p|];
      }
    }

    /** resolveDepartmentPath: the deepest candidate, if it is the only one that deep. */
    method ResolveDepartmentPath(path: Path) returns (resolved: seq<Id>)
      requires Valid()
      modifies this`pathById
      ensures Valid() && |resolved| <= 1
      ensures resolved == [] ==> forall i: nat :: !IsDeepest(unitById, IdsWithKey(units, unitById, PathKey(path)), i)
      ensures resolved != [] ==> exists i: nat :: IsDeepest(unitById, IdsWithKey(units, unitById, PathKey(path)), i)
                                               && IdsWithKey(units, unitById, PathKey(path))[i] == resolved[0]
    {
      var candidates := Bucket(idsByCanonicalPath, PathKey(path));
      if candidates == [] {
        return [];
      }
      var lengths := Lengths(candidates);
      var deepestLevel := Maximum(lengths);
      var places := Places(lengths, deepestLevel);
      OnlyDeepest(lengths, deepestLevel);
      if |places| == 1 {
        TopIsDeepest(unitById, candidates, lengths, places[0]);
        resolved := [candidates[places[0]]];
      } else {
        forall i: nat ensures !IsDeepest(unitById, candidates, i) {
          TopIsDeepest(unitById, candidates, lengths, i);
        }
        resolved := [];
      }
    }

    /** departmentPathBelongsTo, for ids that are primary keys: exactly the definition. */
    method DepartmentPathBelongsTo(path: Path, organization: Id) returns (r: bool)
      requires Valid() && UniqueIds(units)
      modifies this`pathById
      ensures Valid() && (r <==> Belongs(units, path, organization))
    {
      hide PathKey, PathOf;
      ghost var candidates := IdsWithKey(units, unitById, PathKey(path));
      var resolved := ResolveDepartmentPath(path);
      CandidatesAreUnits(units, unitById, PathKey(path));
      if resolved == [] {
        forall u | u in units && PathKey(PathOf(unitById, u.id)) == PathKey(path)
          ensures exists v <- units :: v != u && PathKey(PathOf(unitById, v.id)) == PathKey(path) && Depth(unitById, v.id) >= Depth(unitById, u.id)
        {
          NotDeepest(units, unitById, path, u);
        }
        return false;
      }
      ghost var i: nat :| IsDeepest(unitById, candidates, i) && candidates[i] == resolved[0];
      ByIdHolds(units);
      assert candidates[i] in candidates;
      ghost var u :| u in units && u.id == candidates[i] && PathKey(PathOf(unitById, u.id)) == PathKey(path);
      DeepestIsUnique(units, unitById, path, i, u);
      r := IsDescendantOrSelf(resolved[0], organization);
    }
  }

  /** The candidates of a key are the ids of the units with that key, each listed once. */
  lemma {:induction false} CandidatesAreUnits(units: seq<Unit>, m: Units, key: string)
    ensures forall x :: x in IdsWithKey(units, m, key) <==> exists u <- units :: u.id == x && PathKey(PathOf(m, u.id)) == key
    ensures UniqueIds(units) ==> forall i, j :: 0 <= i < j < |IdsWithKey(units, m, key)| ==> IdsWithKey(units, m, key)[i] != IdsWithKey(units, m, key)[j]
  {
    if units != [] {
      var init, last := units[..|units| - 1], units[|units| - 1];
      assert units == init + [last];
      CandidatesAreUnits(init, m, key);
      if UniqueIds(units) {
        assert forall u <- init :: u.id != last.id;
        assert last.id !in IdsWithKey(init, m, key);
      }
    }
  }

  lemma NotDeepest(units: seq<Unit>, m: Units, path: Path, u: Unit)
    requires UniqueIds(units) && u in units && PathKey(PathOf(m, u.id)) == PathKey(path)
    requires forall i: nat :: !IsDeepest(m, IdsWithKey(units, m, PathKey(path)), i)
    ensures exists v <- units :: v != u && PathKey(PathOf(m, v.id)) == PathKey(path) && Depth(m, v.id) >= Depth(m, u.id)
  {
    var candidates := IdsWithKey(units, m, PathKey(path));
    CandidatesAreUnits(units, m, PathKey(path));
    assert u.id in candidates;
    var i :| 0 <= i < |candidates| && candidates[i] == u.id;
    assert !IsDeepest(m, candidates, i);
    var j :| 0 <= j < |candidates| && j != i && Depth(m, candidates[j]) >= Depth(m, candidates[i]);
    assert candidates[j] in candidates;
    var v :| v in units && v.id == candidates[j] && PathKey(PathOf(m, v.id)) == PathKey(path);
    assert v != u;
  }

  lemma DeepestIsUnique(units: seq<Unit>, m: Units, path: Path, i: nat, u: Unit)
    requires UniqueIds(units) && u in units
    requires IsDeepest(m, IdsWithKey(units, m, PathKey(path)), i) && IdsWithKey(units, m, PathKey(path))[i] == u.id
    ensures forall v <- units :: v != u && PathKey(PathOf(m, v.id)) == PathKey(path) ==> Depth(m, v.id) < Depth(m, u.id)
  {
    var candidates := IdsWithKey(units, m, PathKey(path));
    CandidatesAreUnits(units, m, PathKey(path));
    forall v | v in units && v != u && PathKey(PathOf(m, v.id)) == PathKey(path) ensures Depth(m, v.id) < Depth(m, u.id) {
      assert v.id in candidates;
      var j :| 0 <= j < |candidates| && candidates[j] == v.id;
      assert j != i;
    }
  }
}
