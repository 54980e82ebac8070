/** The packages a consumer would install: the walk over installed directories, cycles included. */
module GraphComponents {
  import opened Options
  import opened Strings

  /** An absolute path, segment by segment. */
  type Path = seq<string>

  /** A package's own manifest: what it is and what it declares, in order. */
  datatype Manifest = Manifest(name: string, version: string, dependencies: seq<string>, optionalDependencies: seq<string>)

  datatype Installed = Installed(name: string, version: string, dependsOn: seq<string>, directory: Path)

  datatype Unresolved = Unresolved(from: string, name: string, optional: bool)

  datatype Declared = Declared(name: string, optional: bool)

  /** The segments of a package name: one, or a scope and one. */
  function Segments(name: string): Path
    decreases |name|
  {
    var at := IndexOf(name, '/');
    var first := if at == 0 then [] else [name[..at]];
    if at == |name| then first else first + Segments(name[at + 1..])
  }

  /** Where a name is looked for beside a directory. */
  function Candidate(current: Path, name: string): Path {
    current + ["node_modules"] + Segments(name)
  }

  /** The installed directories: `installed` has every path a package manifest is found under, links included,
      and the real path behind it, `manifests` what stands there. */
  datatype Disk = Disk(installed: map<Path, Path>, manifests: map<Path, Manifest>) {
    predicate Valid() {
      forall path | path in installed :: installed[path] in manifests
    }

    function Key(d: Path): string
      requires d in manifests
    {
      manifests[d].name + "@" + manifests[d].version
    }

    function Keys(): set<string> {
      set d | d in manifests :: Key(d)
    }

    /** The nearest directory, going up from `d`, beside which the name is installed. */
    function Resolve(d: Path, name: string): (found: Option<Path>)
      ensures Valid() && found.Some? ==> found.value in manifests
      decreases |d|
    {
      if Candidate(d, name) in installed then Some(installed[Candidate(d, name)])
      else if d == [] then None
      else Resolve(d[..|d| - 1], name)
    }
  }

  predicate Beside(disk: Disk, d: Path, name: string, k: nat)
    requires k <= |d|
  {
    Candidate(d[..k], name) in disk.installed
  }

  /** A name resolves exactly when it is installed beside the directory or one above it, and then to what
      is installed nearest. */
  lemma {:induction false} ResolvesNearest(disk: Disk, d: Path, name: string)
    ensures disk.Resolve(d, name).None? <==> forall k: nat | k <= |d| :: !Beside(disk, d, name, k)
    ensures forall k: nat | k <= |d| && Beside(disk, d, name, k) && forall m :: k < m <= |d| ==> !Beside(disk, d, name, m) ::
      disk.Resolve(d, name) == Some(disk.installed[Candidate(d[..k], name)])
    decreases |d|
  {
    hide Candidate;
    assert d[..|d|] == d;
    if !Beside(disk, d, name, |d|) && d != [] {
      var up := d[..|d| - 1];
      ResolvesNearest(disk, up, name);
      forall k: nat | k <= |up| ensures Beside(disk, d, name, k) <==> Beside(disk, up, name, k) {
        assert d[..k] == up[..k];
      }
      forall k: nat | k <= |d| && Beside(disk, d, name, k) && forall m :: k < m <= |d| ==> !Beside(disk, d, name, m)
        ensures disk.Resolve(d, name) == Some(disk.installed[Candidate(d[..k], name)])
      {
        assert d[..k] == up[..k];
        assert Beside(disk, up, name, k) && forall m :: k < m <= |up| ==> !Beside(disk, up, name, m);
      }
    }
  }

  /** The lookup loop, from the directory up to the root. */
  method ResolveFrom(disk: Disk, d: Path, name: string) returns (found: Option<Path>)
    ensures found == disk.Resolve(d, name)
  {
    hide Candidate;
    var current := d;
    while true
      invariant disk.Resolve(d, name) == disk.Resolve(current, name)
      decreases |current|
    {
      var candidate := Candidate(current, name);
      if candidate in disk.installed {
        return Some(disk.installed[candidate]);
      }
      if current == [] {
        return None;
      }
      current := current[..|current| - 1];
    }
  }

  function Optionally(names: seq<string>, optional: bool): seq<Declared> {
    seq(|names|, i requires 0 <= i < |names| => Declared(names[i], optional))
  }

  function DeclaredBy(manifest: Manifest): seq<Declared> {
    Optionally(manifest.dependencies, false) + Optionally(manifest.optionalDependencies, true)
  }

  /** What a manifest declares: its dependencies, and as optional its optional ones. */
  lemma DeclaredExactly(manifest: Manifest, name: string, optional: bool)
    ensures Declared(name, optional) in DeclaredBy(manifest)
      <==> name in if optional then manifest.optionalDependencies else manifest.dependencies
  {
    var sure, perhaps := Optionally(manifest.dependencies, false), Optionally(manifest.optionalDependencies, true);
    if !optional && name in manifest.dependencies {
      var i :| 0 <= i < |manifest.dependencies| && manifest.dependencies[i] == name;
      assert sure[i] == Declared(name, optional);
    } else if optional && name in manifest.optionalDependencies {
      var i :| 0 <= i < |manifest.optionalDependencies| && manifest.optionalDependencies[i] == name;
      assert perhaps[i] == Declared(name, optional);
    }
  }

  /** The keys of what the first declarations resolve to. */
  function EdgeKeys(disk: Disk, d: Path, declared: seq<Declared>): seq<string>
    requires disk.Valid() && d in disk.manifests
  {
    if declared == [] then []
    else
      var last := disk.Resolve(d, declared[|declared| - 1].name);
      EdgeKeys(disk, d, declared[..|declared| - 1]) + if last.Some? then [disk.Key(last.value)] else []
  }

  predicate IsMissing(disk: Disk, d: Path, declared: seq<Declared>, u: Unresolved)
    requires d in disk.manifests
  {
    && u.from == disk.Key(d) && Declared(u.name, u.optional) in declared && disk.Resolve(d, u.name).None?
  }

  /** A declared dependency of the first directory resolves to the second. */
  ghost predicate Edge(disk: Disk, from: Path, d: Path) {
    from in disk.manifests && exists x :: x in DeclaredBy(disk.manifests[from]) && disk.Resolve(from, x.name) == Some(d)
  }

  ghost predicate IsPath(disk: Disk, path: seq<Path>) {
    path != [] && forall i :: 0 <= i < |path| - 1 ==> Edge(disk, path[i], path[i + 1])
  }

  ghost predicate Reaches(disk: Disk, from: Path, d: Path) {
    exists path :: IsPath(disk, path) && path[0] == from && path[|path| - 1] == d
  }

  lemma ReachesSelf(disk: Disk, d: Path)
    ensures Reaches(disk, d, d)
  {
    assert IsPath(disk, [d]);
  }

  lemma ReachesStep(disk: Disk, from: Path, next: Path, d: Path)
    requires Edge(disk, from, next) && Reaches(disk, next, d)
    ensures Reaches(disk, from, d)
  {
    var path :| IsPath(disk, path) && path[0] == next && path[|path| - 1] == d;
    var more := [from] + path;
    forall i | 0 <= i < |more| - 1 ensures Edge(disk, more[i], more[i + 1]) {
      if i > 0 { assert Edge(disk, path[i - 1], path[i]); }
    }
    assert IsPath(disk, more);
  }

  // ---------- The walk ----------

  /** The entry of a package whose directory has been walked. */
  ghost predicate Complete(disk: Disk, key: string, entry: Installed, keys: set<string>)
    requires disk.Valid()
  {
    && entry.directory in disk.manifests && key == disk.Key(entry.directory)
    && entry.name == disk.manifests[entry.directory].name && entry.version == disk.manifests[entry.directory].version
    && entry.dependsOn == EdgeKeys(disk, entry.directory, DeclaredBy(disk.manifests[entry.directory]))
    && forall k :: k in entry.dependsOn ==> k in keys
  }

  /** What a walk from `d` adds: entries of packages in reach, each complete, what was there unchanged. */
  ghost predicate Walked(disk: Disk, d: Path, before: map<string, Installed>, after: map<string, Installed>)
    requires disk.Valid()
  {
    && before.Keys <= after.Keys && (forall k | k in before :: after[k] == before[k])
    && (forall k | k in after && k !in before ::
        Complete(disk, k, after[k], after.Keys) && Reaches(disk, d, after[k].directory))
  }

  /** A declaration of a package added by the walk does not resolve. */
  ghost predicate MissingAmong(disk: Disk, before: map<string, Installed>, after: map<string, Installed>, u: Unresolved) {
    exists k | k in after && k !in before :: after[k].directory in disk.manifests
      && IsMissing(disk, after[k].directory, DeclaredBy(disk.manifests[after[k].directory]), u)
  }

  ghost predicate Reported(disk: Disk, before: map<string, Installed>, after: map<string, Installed>,
    reportedBefore: seq<Unresolved>, reported: seq<Unresolved>)
  {
    forall u :: u in reported <==> u in reportedBefore || MissingAmong(disk, before, after, u)
  }

  lemma CompleteStays(disk: Disk, key: string, entry: Installed, some: set<string>, keys: set<string>)
    requires disk.Valid() && Complete(disk, key, entry, some) && some <= keys
    ensures Complete(disk, key, entry, keys)
  {
  }

  lemma WalkedOn(disk: Disk, d: Path, next: Path, x: map<string, Installed>, y: map<string, Installed>, z: map<string, Installed>)
    requires disk.Valid() && Walked(disk, d, x, y) && Walked(disk, next, y, z) && Edge(disk, d, next)
    ensures Walked(disk, d, x, z)
  {
    hide Complete, Reaches, Edge;
    forall k | k in z && k !in x ensures Complete(disk, k, z[k], z.Keys) && Reaches(disk, d, z[k].directory) {
      if k in y {
        CompleteStays(disk, k, y[k], y.Keys, z.Keys);
      } else {
        ReachesStep(disk, d, next, z[k].directory);
      }
    }
  }

  lemma MissingOn(disk: Disk, x: map<string, Installed>, y: map<string, Installed>, z: map<string, Installed>, u: Unresolved)
    requires x.Keys <= y.Keys <= z.Keys && forall k | k in y :: z[k] == y[k]
    ensures MissingAmong(disk, x, z, u) <==> MissingAmong(disk, x, y, u) || MissingAmong(disk, y, z, u)
  {
    hide IsMissing;
  }

  /** A package's own entry, put in place once its declarations have been followed. */
  lemma WalkedSelf(disk: Disk, d: Path, before: map<string, Installed>, partial: Installed, seen: map<string, Installed>,
      entry: Installed)
    requires disk.Valid() && d in disk.manifests && disk.Key(d) !in before && entry.directory == d
    requires Walked(disk, d, before[disk.Key(d) := partial], seen)
    requires Complete(disk, disk.Key(d), entry, seen.Keys)
    ensures Walked(disk, d, before, seen[disk.Key(d) := entry])
  {
    hide Complete, Reaches;
    ReachesSelf(disk, d);
    var after := seen[disk.Key(d) := entry];
    assert after.Keys == seen.Keys;
  }

  lemma MissingSelf(disk: Disk, d: Path, before: map<string, Installed>, partial: Installed, seen: map<string, Installed>,
      entry: Installed, u: Unresolved)
    requires d in disk.manifests && disk.Key(d) !in before && disk.Key(d) in seen && entry.directory == d
    ensures MissingAmong(disk, before, seen[disk.Key(d) := entry], u)
      <==> IsMissing(disk, d, DeclaredBy(disk.manifests[d]), u) || MissingAmong(disk, before[disk.Key(d) := partial], seen, u)
  {
    hide IsMissing, DeclaredBy;
    var key, after := disk.Key(d), seen[disk.Key(d) := entry];
    if IsMissing(disk, d, DeclaredBy(disk.manifests[d]), u) {
      assert after[key].directory == d;
    }
    if MissingAmong(disk, before[key := partial], seen, u) {
      var k :| k in seen && k !in before[key := partial] && seen[k].directory in disk.manifests
        && IsMissing(disk, seen[k].directory, DeclaredBy(disk.manifests[seen[k].directory]), u);
      assert after[k] == seen[k];
    }
    if MissingAmong(disk, before, after, u) {
      var k :| k in after && k !in before && after[k].directory in disk.manifests
        && IsMissing(disk, after[k].directory, DeclaredBy(disk.manifests[after[k].directory]), u);
      if k != key { assert seen[k] == after[k] && k !in before[key := partial]; }
    }
  }

  class ComponentWalk {
    const disk: Disk
    var seen: map<string, Installed>
    var unresolved: seq<Unresolved>

    constructor (disk: Disk)
      ensures this.disk == disk && seen == map[] && unresolved == []
    {
      this.disk, seen, unresolved := disk, map[], [];
    }

    /** Walks a directory unless its package has been seen; a cycle meets the entry put in place first. */
    method Visit(d: Path) returns (key: string)
      requires disk.Valid() && d in disk.manifests && seen.Keys <= disk.Keys()
      modifies this
      ensures key == disk.Key(d) && key in seen && seen.Keys <= disk.Keys()
      ensures Walked(disk, d, old(seen), seen) && Reported(disk, old(seen), seen, old(unresolved), unresolved)
      decreases disk.Keys() - seen.Keys, 0
    {
      hide Walked, Complete, MissingAmong, IsMissing, EdgeKeys, DeclaredBy;
      key := disk.Key(d);
      ghost var before := seen;
      if key in seen {
        NothingWalked(disk, d, seen);
        return;
      }
      var manifest := disk.manifests[d];
      var partial := Installed(manifest.name, manifest.version, [], d);
      assert key in disk.Keys() - seen.Keys;
      seen := seen[key := partial];
      var edges := Follow(d, DeclaredBy(manifest));
      var entry := partial.(dependsOn := edges);
      WalkedSelf(disk, d, before, partial, seen, entry) by { OwnEntry(disk, d, entry, seen.Keys); WalkedKeys(disk, d, before[key := partial], seen); }
      ghost var walked := seen;
      WalkedKeys(disk, d, before[key := partial], seen);
      seen := seen[key := entry];
      forall u ensures u in unresolved <==> u in old(unresolved) || MissingAmong(disk, before, seen, u) {
        MissingSelf(disk, d, before, partial, walked, entry, u);
      }
    }

    /** Follows what a package declares, in order. */
    method Follow(d: Path, declared: seq<Declared>) returns (edges: seq<string>)
      requires disk.Valid() && d in disk.manifests && seen.Keys <= disk.Keys() && declared == DeclaredBy(disk.manifests[d])
      modifies this
      ensures seen.Keys <= disk.Keys() && Walked(disk, d, old(seen), seen)
      ensures edges == EdgeKeys(disk, d, declared) && forall k :: k in edges ==> k in seen
      ensures forall u :: u in unresolved <==>
        u in old(unresolved) || IsMissing(disk, d, declared, u) || MissingAmong(disk, old(seen), seen, u)
      decreases disk.Keys() - seen.Keys, 2
    {
      hide Walked, MissingAmong, DeclaredBy, Complete;
      ghost var before := seen;
      edges := [];
      NothingWalked(disk, d, seen);
      for i := 0 to |declared|
        invariant seen.Keys <= disk.Keys() && before.Keys <= seen.Keys && Walked(disk, d, before, seen)
        invariant edges == EdgeKeys(disk, d, declared[..i]) && forall k :: k in edges ==> k in seen
        invariant forall u :: u in unresolved <==>
          u in old(unresolved) || IsMissing(disk, d, declared[..i], u) || MissingAmong(disk, before, seen, u)
      {
        edges := FollowOne(d, declared, i, before, old(unresolved), edges);
      }
      assert declared[..|declared|] == declared;
    }

    /** One declared dependency: walked when it resolves, reported when it does not. */
    method FollowOne(d: Path, declared: seq<Declared>, i: nat, ghost before: map<string, Installed>,
        ghost reported: seq<Unresolved>, edges: seq<string>)
      returns (more: seq<string>)
      requires disk.Valid() && d in disk.manifests && seen.Keys <= disk.Keys() && declared == DeclaredBy(disk.manifests[d])
      requires i < |declared| && Walked(disk, d, before, seen)
      requires edges == EdgeKeys(disk, d, declared[..i]) && forall k :: k in edges ==> k in seen
      requires forall u :: u in unresolved <==>
        u in reported || IsMissing(disk, d, declared[..i], u) || MissingAmong(disk, before, seen, u)
      modifies this
      ensures seen.Keys <= disk.Keys() && Walked(disk, d, before, seen) && old(seen).Keys <= seen.Keys
      ensures more == EdgeKeys(disk, d, declared[..i + 1]) && forall k :: k in more ==> k in seen
      ensures forall u :: u in unresolved <==>
        u in reported || IsMissing(disk, d, declared[..i + 1], u) || MissingAmong(disk, before, seen, u)
      decreases disk.Keys() - seen.Keys, 1
    {
      hide Walked, MissingAmong, DeclaredBy, Complete, IsMissing;
      var dependency := declared[i];
      var resolved := ResolveFrom(disk, d, dependency.name);
      assert declared[..i + 1][..i] == declared[..i];
      forall u ensures IsMissing(disk, d, declared[..i + 1], u)
        <==> IsMissing(disk, d, declared[..i], u)
             || (resolved.None? && u == Unresolved(disk.Key(d), dependency.name, dependency.optional))
      {
        MissingNext(disk, d, declared, i, u);
      }
      if resolved.None? {
        unresolved := unresolved + [Unresolved(disk.Key(d), dependency.name, dependency.optional)];
        return edges;
      }
      ghost var middle := seen;
      WalkedKeys(disk, d, before, seen);
      var key := Visit(resolved.value);
      WalkedKeys(disk, resolved.value, middle, seen);
      assert Edge(disk, d, resolved.value) by { EdgeOf(disk, d, i); }
      WalkedOn(disk, d, resolved.value, before, middle, seen);
      forall u ensures MissingAmong(disk, before, seen, u) <==> MissingAmong(disk, before, middle, u) || MissingAmong(disk, middle, seen, u) {
        MissingOn(disk, before, middle, seen, u);
      }
      return edges + [key];
    }
  }

  lemma EdgeOf(disk: Disk, d: Path, i: nat)
    requires d in disk.manifests && i < |DeclaredBy(disk.manifests[d])|
    requires disk.Resolve(d, DeclaredBy(disk.manifests[d])[i].name).Some?
    ensures Edge(disk, d, disk.Resolve(d, DeclaredBy(disk.manifests[d])[i].name).value)
  {
    var x := DeclaredBy(disk.manifests[d])[i];
    assert x in DeclaredBy(disk.manifests[d]);
  }

  lemma MissingNext(disk: Disk, d: Path, declared: seq<Declared>, i: nat, u: Unresolved)
    requires d in disk.manifests && i < |declared|
    ensures IsMissing(disk, d, declared[..i + 1], u)
      <==> IsMissing(disk, d, declared[..i], u)
           || (disk.Resolve(d, declared[i].name).None? && u == Unresolved(disk.Key(d), declared[i].name, declared[i].optional))
  {
    assert declared[..i + 1] == declared[..i] + [declared[i]];
  }

  lemma NothingWalked(disk: Disk, d: Path, seen: map<string, Installed>)
    requires disk.Valid()
    ensures Walked(disk, d, seen, seen) && forall u :: !MissingAmong(disk, seen, seen, u)
  {
  }

  lemma WalkedKeys(disk: Disk, d: Path, before: map<string, Installed>, after: map<string, Installed>)
    requires disk.Valid() && Walked(disk, d, before, after)
    ensures before.Keys <= after.Keys && forall k | k in before :: after[k] == before[k]
  {
  }

  lemma OwnEntry(disk: Disk, d: Path, entry: Installed, keys: set<string>)
    requires disk.Valid() && d in disk.manifests && entry.directory == d
    requires entry.name == disk.manifests[d].name && entry.version == disk.manifests[d].version
    requires entry.dependsOn == EdgeKeys(disk, d, DeclaredBy(disk.manifests[d])) && forall k :: k in entry.dependsOn ==> k in keys
    ensures Complete(disk, disk.Key(d), entry, keys)
  {
  }

  // ---------- The whole graph ----------

  datatype Graph = Graph(root: Installed, components: map<string, Installed>, unresolved: seq<Unresolved>)

  /** Among the packages in reach, a name and version belong to one directory. */
  ghost predicate KeysIdentify(disk: Disk, root: Path) {
    forall d, e | d in disk.manifests && e in disk.manifests && Reaches(disk, root, d) && Reaches(disk, root, e) ::
      disk.Key(d) == disk.Key(e) ==> d == e
  }

  lemma {:induction false} EdgeInKeys(disk: Disk, d: Path, declared: seq<Declared>, x: Declared)
    requires disk.Valid() && d in disk.manifests && x in declared && disk.Resolve(d, x.name).Some?
    ensures disk.Key(disk.Resolve(d, x.name).value) in EdgeKeys(disk, d, declared)
  {
    if x != declared[|declared| - 1] { EdgeInKeys(disk, d, declared[..|declared| - 1], x); }
  }

  lemma ReachesEnd(disk: Disk, from: Path, d: Path, next: Path)
    requires Reaches(disk, from, d) && Edge(disk, d, next)
    ensures Reaches(disk, from, next)
  {
    var path :| IsPath(disk, path) && path[0] == from && path[|path| - 1] == d;
    var more := path + [next];
    forall i | 0 <= i < |more| - 1 ensures Edge(disk, more[i], more[i + 1]) {
      if i + 1 < |path| { assert Edge(disk, path[i], path[i + 1]); }
    }
    assert IsPath(disk, more);
  }

  /** What a seen package's declarations resolve to has been seen. */
  lemma EdgeWalked(disk: Disk, root: Path, seen: map<string, Installed>, d: Path, next: Path)
    requires disk.Valid() && Walked(disk, root, map[], seen) && d in disk.manifests && Edge(disk, d, next)
    requires disk.Key(d) in seen && seen[disk.Key(d)].directory == d
    ensures next in disk.manifests && disk.Key(next) in seen
    ensures seen[disk.Key(next)].directory in disk.manifests && disk.Key(seen[disk.Key(next)].directory) == disk.Key(next)
    ensures Reaches(disk, root, seen[disk.Key(next)].directory)
  {
    hide EdgeKeys, DeclaredBy, Disk.Resolve, Reaches;
    var x :| x in DeclaredBy(disk.manifests[d]) && disk.Resolve(d, x.name) == Some(next);
    EdgeInKeys(disk, d, DeclaredBy(disk.manifests[d]), x);
  }

  /** The directory's package is there, under its own key. */
  ghost predicate Entered(disk: Disk, root: Path, seen: map<string, Installed>, d: Path) {
    && d in disk.manifests && Reaches(disk, root, d)
    && disk.Key(d) in seen && seen[disk.Key(d)].directory == d
  }

  lemma RootEntered(disk: Disk, root: Path, seen: map<string, Installed>)
    requires disk.Valid() && root in disk.manifests && disk.Key(root) in seen && Walked(disk, root, map[], seen)
    requires KeysIdentify(disk, root)
    ensures Entered(disk, root, seen, root)
  {
    hide Reaches, Disk.Resolve;
    ReachesSelf(disk, root);
    CompleteKey(disk, disk.Key(root), seen[disk.Key(root)], seen.Keys);
  }

  lemma EdgeEntered(disk: Disk, root: Path, seen: map<string, Installed>, d: Path, next: Path)
    requires disk.Valid() && Walked(disk, root, map[], seen) && KeysIdentify(disk, root)
    requires Entered(disk, root, seen, d) && Edge(disk, d, next)
    ensures Entered(disk, root, seen, next)
  {
    hide Walked, IsPath, Reaches, Edge, Disk.Resolve;
    ReachesEnd(disk, root, d, next);
    EdgeWalked(disk, root, seen, d, next);
  }

  /** Along every path from the root, each directory's package is entered. */
  lemma {:induction false} PathWalked(disk: Disk, root: Path, seen: map<string, Installed>, path: seq<Path>, n: nat)
    requires disk.Valid() && root in disk.manifests && disk.Key(root) in seen && Walked(disk, root, map[], seen)
    requires KeysIdentify(disk, root) && IsPath(disk, path) && path[0] == root && n < |path|
    ensures Entered(disk, root, seen, path[n])
  {
    hide *;
    if n == 0 {
      RootEntered(disk, root, seen);
    } else {
      EdgeAt(disk, path, n - 1);
      PathWalked(disk, root, seen, path, n - 1);
      EdgeEntered(disk, root, seen, path[n - 1], path[n]);
    }
  }

  lemma EdgeAt(disk: Disk, path: seq<Path>, i: nat)
    requires IsPath(disk, path) && i + 1 < |path|
    ensures Edge(disk, path[i], path[i + 1])
  {
  }

  /** The component graph. It holds only packages in reach, each with all its edges inside the graph and
      every unresolved declaration reported; and all packages in reach exactly when keys identify their
      directories. */
  method ResolveComponentGraph(disk: Disk, root: Path) returns (graph: Graph)
    requires disk.Valid() && root in disk.manifests
    ensures graph.root.directory in disk.manifests && disk.Key(graph.root.directory) == disk.Key(root)
    ensures disk.Key(root) !in graph.components
    ensures
      var all := graph.components[disk.Key(root) := graph.root];
      && (forall k | k in all :: Complete(disk, k, all[k], all.Keys) && Reaches(disk, root, all[k].directory))
      && (forall u :: u in graph.unresolved <==> MissingAmong(disk, map[], all, u))
      && (KeysIdentify(disk, root) <==>
          forall d | d in disk.manifests && Reaches(disk, root, d) :: disk.Key(d) in all && all[disk.Key(d)].directory == d)
  {
    hide Complete, MissingAmong, IsMissing, EdgeKeys, DeclaredBy, Reaches, Edge, IsPath;
    var walk := new ComponentWalk(disk);
    var key := walk.Visit(root);
    graph := Graph(walk.seen[key], walk.seen - {key}, walk.unresolved);
    ghost var all := graph.components[key := graph.root];
    assert all == walk.seen;
    CompleteKey(disk, key, walk.seen[key], walk.seen.Keys);
    if KeysIdentify(disk, root) {
      forall d | d in disk.manifests && Reaches(disk, root, d) ensures disk.Key(d) in all && all[disk.Key(d)].directory == d {
        ReachedIsSeen(disk, root, all, d);
      }
    }
  }

  lemma CompleteKey(disk: Disk, key: string, entry: Installed, keys: set<string>)
    requires disk.Valid() && Complete(disk, key, entry, keys)
    ensures entry.directory in disk.manifests && disk.Key(entry.directory) == key
  {
  }

  lemma ReachedIsSeen(disk: Disk, root: Path, seen: map<string, Installed>, d: Path)
    requires disk.Valid() && root in disk.manifests && disk.Key(root) in seen && Walked(disk, root, map[], seen)
    requires KeysIdentify(disk, root) && d in disk.manifests && Reaches(disk, root, d)
    ensures disk.Key(d) in seen && seen[disk.Key(d)].directory == d
  {
    hide Walked, KeysIdentify;
    var path :| IsPath(disk, path) && path[0] == root && path[|path| - 1] == d;
    PathWalked(disk, root, seen, path, |path| - 1) by { NonEmptyPath(disk, path); }
  }

  lemma NonEmptyPath(disk: Disk, path: seq<Path>)
    requires IsPath(disk, path)
    ensures path != []
  {
  }
}
