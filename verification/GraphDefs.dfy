/** Which definitions a tool's schema carries: exactly those its references reach. */
module GraphDefs {
  import opened Options

  /** A schema as far as references go: its own, and its nested schemas by keyword. Property names and
      the keywords that hold no schema are left away. */
  datatype Schema = Schema(ref: Option<string>, properties: seq<Schema>, defs: seq<Schema>, items: seq<Schema>,
    oneOf: seq<Schema>, allOf: seq<Schema>)

  const PREFIX: string := "#/$defs/"

  /** The definition a reference names; `None` where the program throws. */
  function RefName(ref: string): Option<string> {
    if PREFIX <= ref && |ref| > |PREFIX| && '/' !in ref[|PREFIX|..] then Some(ref[|PREFIX|..]) else None
  }

  // ---------- The references of a schema, at any depth ----------

  function RefsIn(node: Schema): set<string>
    decreases node, 0
  {
    (if node.ref.Some? then {node.ref.value} else {})
    + RefsInFirst(node.properties, |node.properties|) + RefsInFirst(node.defs, |node.defs|)
    + RefsInFirst(node.items, |node.items|) + RefsInFirst(node.oneOf, |node.oneOf|) + RefsInFirst(node.allOf, |node.allOf|)
  }

  function RefsInFirst(nodes: seq<Schema>, n: nat): set<string>
    requires n <= |nodes|
    decreases nodes, n
  {
    if n == 0 then {} else RefsInFirst(nodes, n - 1) + RefsIn(nodes[n - 1])
  }

  /** All these references can be followed. */
  predicate Followable(refs: set<string>, scope: map<string, Schema>) {
    forall r :: r in refs ==> RefName(r).Some? && RefName(r).value in scope
  }

  function NamesOf(refs: set<string>): set<string> {
    set r | r in refs && RefName(r).Some? :: RefName(r).value
  }

  /** Following references from these, `path` leads to its last name. */
  ghost predicate IsPath(refs: set<string>, scope: map<string, Schema>, path: seq<string>)
    decreases path
  {
    && path != [] && path[0] in NamesOf(refs) && path[0] in scope
    && (|path| > 1 ==> IsPath(RefsIn(scope[path[0]]), scope, path[1..]))
  }

  ghost predicate Reaches(refs: set<string>, scope: map<string, Schema>, name: string) {
    exists path :: IsPath(refs, scope, path) && path[|path| - 1] == name
  }

  /** Something that cannot be followed is among the references or reached from them. */
  ghost predicate ReachesBad(refs: set<string>, scope: map<string, Schema>) {
    !Followable(refs, scope) || exists name | name in scope :: Reaches(refs, scope, name) && !Followable(RefsIn(scope[name]), scope)
  }

  lemma ReachesStep(refs: set<string>, scope: map<string, Schema>, r: string, name: string)
    requires r in refs && RefName(r).Some? && RefName(r).value in scope
    ensures Reaches(refs, scope, RefName(r).value)
    ensures Reaches(RefsIn(scope[RefName(r).value]), scope, name) ==> Reaches(refs, scope, name)
  {
    var first := RefName(r).value;
    assert IsPath(refs, scope, [first]);
    if Reaches(RefsIn(scope[first]), scope, name) {
      var path :| IsPath(RefsIn(scope[first]), scope, path) && path[|path| - 1] == name;
      assert ([first] + path)[1..] == path;
      assert IsPath(refs, scope, [first] + path);
    }
  }

  lemma ReachesMore(some: set<string>, refs: set<string>, scope: map<string, Schema>, name: string)
    requires some <= refs
    ensures Reaches(some, scope, name) ==> Reaches(refs, scope, name)
    ensures ReachesBad(some, scope) ==> ReachesBad(refs, scope)
  {
    forall n | Reaches(some, scope, n) ensures Reaches(refs, scope, n) {
      var path :| IsPath(some, scope, path) && path[|path| - 1] == n;
      assert IsPath(refs, scope, path);
    }
  }

  // ---------- The traversal ----------

  /** What visiting adds to the definitions found: all it names, each explored, and nothing out of reach. */
  ghost predicate Visited(refs: set<string>, scope: map<string, Schema>, before: map<string, Schema>, after: map<string, Schema>) {
    && before.Keys <= after.Keys <= scope.Keys
    && (forall n :: n in after.Keys ==> after[n] == scope[n])
    && Followable(refs, scope) && NamesOf(refs) <= after.Keys
    && (forall n :: n in after.Keys - before.Keys ==>
        Reaches(refs, scope, n) && Followable(RefsIn(scope[n]), scope) && NamesOf(RefsIn(scope[n])) <= after.Keys)
  }

  ghost predicate Found(scope: map<string, Schema>, found: map<string, Schema>) {
    found.Keys <= scope.Keys && forall n :: n in found.Keys ==> found[n] == scope[n]
  }

  lemma VisitedNothing(scope: map<string, Schema>, found: map<string, Schema>)
    requires Found(scope, found)
    ensures Visited({}, scope, found, found)
  {
  }

  lemma VisitedBoth(a: set<string>, b: set<string>, scope: map<string, Schema>, x: map<string, Schema>, y: map<string, Schema>,
      z: map<string, Schema>)
    requires Visited(a, scope, x, y) && Visited(b, scope, y, z)
    ensures Visited(a + b, scope, x, z)
  {
    hide RefsIn, IsPath;
    forall n | n in z.Keys - x.Keys
      ensures Reaches(a + b, scope, n) && Followable(RefsIn(scope[n]), scope) && NamesOf(RefsIn(scope[n])) <= z.Keys
    {
      ReachesMore(a, a + b, scope, n);
      ReachesMore(b, a + b, scope, n);
      if n in y.Keys { assert n in y.Keys - x.Keys; } else { assert n in z.Keys - y.Keys; }
    }
    assert NamesOf(a + b) == NamesOf(a) + NamesOf(b);
  }

  /** Following one reference to a definition not seen before. */
  lemma VisitedTarget(r: string, scope: map<string, Schema>, x: map<string, Schema>, z: map<string, Schema>)
    requires Found(scope, x) && RefName(r).Some? && RefName(r).value in scope && RefName(r).value !in x
    requires Visited(RefsIn(scope[RefName(r).value]), scope, x[RefName(r).value := scope[RefName(r).value]], z)
    ensures Visited({r}, scope, x, z)
  {
    hide RefsIn, IsPath;
    var name := RefName(r).value;
    forall n | n in z.Keys - x.Keys
      ensures Reaches({r}, scope, n) && Followable(RefsIn(scope[n]), scope) && NamesOf(RefsIn(scope[n])) <= z.Keys
    {
      ReachesStep({r}, scope, r, n);
    }
  }

  /** The recursion of `reachableDefs`: it fills `found`, and ends because a definition is entered once. */
  method Visit(node: Schema, scope: map<string, Schema>, found: map<string, Schema>)
    returns (ok: bool, more: map<string, Schema>)
    requires Found(scope, found)
    ensures ok ==> Visited(RefsIn(node), scope, found, more)
    ensures !ok ==> ReachesBad(RefsIn(node), scope)
    decreases scope.Keys - found.Keys, node, 1
  {
    hide Visited, ReachesBad, RefsInFirst, Found, IsPath;
    var own := if node.ref.Some? then {node.ref.value} else {};
    more := found;
    if node.ref.Some? {
      ok, more := VisitRef(node, node.ref.value, scope, found);
      if !ok { PartIsBad(own, RefsIn(node), scope); return; }
    } else {
      VisitedNothing(scope, found);
    }
    ok, more := VisitRest(node, node.properties, own, scope, found, more);
    if !ok { return; }
    var seen := own + RefsInFirst(node.properties, |node.properties|);
    ok, more := VisitRest(node, node.defs, seen, scope, found, more);
    if !ok { return; }
    seen := seen + RefsInFirst(node.defs, |node.defs|);
    ok, more := VisitRest(node, node.items, seen, scope, found, more);
    if !ok { return; }
    seen := seen + RefsInFirst(node.items, |node.items|);
    ok, more := VisitRest(node, node.oneOf, seen, scope, found, more);
    if !ok { return; }
    seen := seen + RefsInFirst(node.oneOf, |node.oneOf|);
    ok, more := VisitRest(node, node.allOf, seen, scope, found, more);
  }

  lemma PartIsBad(some: set<string>, refs: set<string>, scope: map<string, Schema>)
    requires some <= refs && ReachesBad(some, scope)
    ensures ReachesBad(refs, scope)
  {
    ReachesMore(some, refs, scope, "");
  }

  lemma VisitedFound(refs: set<string>, scope: map<string, Schema>, before: map<string, Schema>, after: map<string, Schema>)
    requires Visited(refs, scope, before, after)
    ensures Found(scope, after) && before.Keys <= after.Keys <= scope.Keys
  {
  }

  /** The node's own reference. */
  method VisitRef(node: Schema, r: string, scope: map<string, Schema>, found: map<string, Schema>)
    returns (ok: bool, more: map<string, Schema>)
    requires Found(scope, found) && node.ref == Some(r)
    ensures ok ==> Visited({r}, scope, found, more)
    ensures !ok ==> ReachesBad({r}, scope)
    decreases scope.Keys - found.Keys, node, 0
  {
    hide RefsIn, IsPath;
    var name := RefName(r);
    if name.None? || name.value !in scope {
      assert !Followable({r}, scope);
      return false, found;
    }
    if name.value in found {
      assert NamesOf({r}) == {name.value};
      return true, found;
    }
    var target := scope[name.value];
    assert name.value in scope.Keys - found.Keys;
    ok, more := Visit(target, scope, found[name.value := target]);
    if ok {
      VisitedTarget(r, scope, found, more);
    } else {
      BadTarget(r, scope);
    }
  }

  lemma BadTarget(r: string, scope: map<string, Schema>)
    requires RefName(r).Some? && RefName(r).value in scope && ReachesBad(RefsIn(scope[RefName(r).value]), scope)
    ensures ReachesBad({r}, scope)
  {
    hide RefsIn, IsPath;
    var name := RefName(r).value;
    ReachesStep({r}, scope, r, name);
    if Followable(RefsIn(scope[name]), scope) {
      var n :| n in scope && Reaches(RefsIn(scope[name]), scope, n) && !Followable(RefsIn(scope[n]), scope);
      ReachesStep({r}, scope, r, n);
    }
  }

  /** The loop over one keyword's schemas, after `seen` has been visited. */
  method VisitRest(node: Schema, nodes: seq<Schema>, seen: set<string>, scope: map<string, Schema>, ghost before: map<string, Schema>,
      found: map<string, Schema>)
    returns (ok: bool, more: map<string, Schema>)
    requires Found(scope, before) && Visited(seen, scope, before, found)
    requires seen + RefsInFirst(nodes, |nodes|) <= RefsIn(node)
    requires forall i :: 0 <= i < |nodes| ==> nodes[i] < node
    ensures ok ==> Visited(seen + RefsInFirst(nodes, |nodes|), scope, before, more)
    ensures !ok ==> ReachesBad(RefsIn(node), scope)
    decreases scope.Keys - before.Keys, node, 0
  {
    hide Visited, ReachesBad, Found, IsPath, RefsIn;
    ok, more := true, found;
    assert seen + RefsInFirst(nodes, 0) == seen;
    for i := 0 to |nodes|
      invariant ok && Visited(seen + RefsInFirst(nodes, i), scope, before, more)
    {
      VisitedFound(seen + RefsInFirst(nodes, i), scope, before, more);
      RefsInPrefix(nodes, i);
      var last := more;
      ok, more := Visit(nodes[i], scope, more);
      if !ok {
        PartIsBad(RefsIn(nodes[i]), RefsIn(node), scope);
        return;
      }
      VisitedBoth(seen + RefsInFirst(nodes, i), RefsIn(nodes[i]), scope, before, last, more);
      assert seen + RefsInFirst(nodes, i) + RefsIn(nodes[i]) == seen + RefsInFirst(nodes, i + 1);
    }
  }

  lemma {:induction false} RefsInPrefix(nodes: seq<Schema>, i: nat)
    requires i < |nodes|
    ensures RefsInFirst(nodes, i + 1) == RefsInFirst(nodes, i) + RefsIn(nodes[i])
    ensures RefsIn(nodes[i]) <= RefsInFirst(nodes, |nodes|)
  {
    var n := |nodes|;
    RefsInGrows(nodes, i + 1, n);
  }

  lemma {:induction false} RefsInGrows(nodes: seq<Schema>, i: nat, n: nat)
    requires i <= n <= |nodes|
    ensures RefsInFirst(nodes, i) <= RefsInFirst(nodes, n)
  {
    if i < n { RefsInGrows(nodes, i, n - 1); }
  }

  /** The definitions of a schema: exactly those reachable by reference, when every reference that can
      be reached can be followed; otherwise the contract is refused. */
  method ReachableDefs(schema: Schema, scope: map<string, Schema>) returns (defs: Option<map<string, Schema>>)
    ensures defs.None? <==> ReachesBad(RefsIn(schema), scope)
    ensures defs.Some? ==> forall n :: n in defs.value <==> Reaches(RefsIn(schema), scope, n)
    ensures defs.Some? ==> forall n :: n in defs.value ==> n in scope && defs.value[n] == scope[n]
    ensures defs.Some? ==> SelfContained(schema, defs.value)
  {
    hide RefsIn;
    var ok, found := Visit(schema, scope, map[]);
    if !ok {
      return None;
    }
    forall n | Reaches(RefsIn(schema), scope, n) ensures n in found {
      var path :| IsPath(RefsIn(schema), scope, path) && path[|path| - 1] == n;
      PathStays(RefsIn(schema), scope, found, path);
    }
    return Some(found);
  }

  /** What has been visited is closed: no path leads out of it. */
  lemma {:induction false} PathStays(refs: set<string>, scope: map<string, Schema>, found: map<string, Schema>, path: seq<string>)
    requires found.Keys <= scope.Keys && forall n :: n in found ==> NamesOf(RefsIn(scope[n])) <= found.Keys
    requires NamesOf(refs) <= found.Keys && IsPath(refs, scope, path)
    ensures path[|path| - 1] in found
    decreases path
  {
    hide RefsIn, NamesOf;
    if |path| > 1 { PathStays(RefsIn(scope[path[0]]), scope, found, path[1..]); }
  }

  /** Every reference in the schema, and in each definition sent along, names a definition sent along. */
  ghost predicate SelfContained(schema: Schema, defs: map<string, Schema>) {
    && Followable(RefsIn(schema), defs)
    && forall n :: n in defs ==> Followable(RefsIn(defs[n]), defs)
  }
}
