/** Body mutations: the mutator that applies one, and the merge of a route's and a backend's
    mutation. A body is a map from top-level field names to opaque values. */
module BodyMutation {
  import opened Wrappers

  type Body = map<string, string>
  datatype Field = Field(path: string, value: string)
  datatype Mutation = Mutation(sets: seq<Field>, removes: seq<string>)

  // ------------------------------------------------------------------ the mutator

  function Removed(body: Body, names: seq<string>): Body {
    if names == [] then body
    else
      var name := names[|names| - 1];
      var was := Removed(body, names[..|names| - 1]);
      if name == "" then was else was - {name}
  }

  function Assigned(body: Body, fields: seq<Field>): Body {
    if fields == [] then body
    else
      var f := fields[|fields| - 1];
      var was := Assigned(body, fields[..|fields| - 1]);
      if f.path == "" then was else was[f.path := f.value]
  }

  function Mutated(body: Body, m: Option<Mutation>): Body {
    if m.None? then body else Assigned(Removed(body, m.value.removes), m.value.sets)
  }

  /** Mutate: removals first, then assignments; empty names are skipped. */
  method Mutate(body: Body, m: Option<Mutation>) returns (mutated: Body)
    ensures mutated == Mutated(body, m)
  {
    mutated := body;
    if m.None? {
      return;
    }
    var names, fields := m.value.removes, m.value.sets;
    for i := 0 to |names|
      invariant mutated == Removed(body, names[..i])
    {
      assert names[..i + 1][..i] == names[..i];
      if names[i] != "" {
        mutated := mutated - {names[i]};
      }
    }
    assert names[..|names|] == names;
    ghost var kept := mutated;
    for i := 0 to |fields|
      invariant mutated == Assigned(kept, fields[..i])
    {
      assert fields[..i + 1][..i] == fields[..i];
      if fields[i].path != "" {
        mutated := mutated[fields[i].path := fields[i].value];
      }
    }
    assert fields[..|fields|] == fields;
  }

  /** The last value assigned to a path. */
  function LastValue(fields: seq<Field>, path: string): Option<string> {
    if fields == [] then None
    else if fields[|fields| - 1].path == path then Some(fields[|fields| - 1].value)
    else LastValue(fields[..|fields| - 1], path)
  }

  function At(body: Body, name: string): Option<string> {
    if name in body then Some(body[name]) else None
  }

  lemma {:induction false} RemovedAt(body: Body, names: seq<string>, name: string)
    ensures At(Removed(body, names), name) == if name != "" && name in names then None else At(body, name)
  {
    if names != [] {
      RemovedAt(body, names[..|names| - 1], name);
      assert names == names[..|names| - 1] + [names[|names| - 1]];
    }
  }

  lemma {:induction false} AssignedAt(body: Body, fields: seq<Field>, name: string)
    ensures At(Assigned(body, fields), name) ==
            if name != "" && LastValue(fields, name).Some? then LastValue(fields, name) else At(body, name)
  {
    if fields != [] {
      AssignedAt(body, fields[..|fields| - 1], name);
    }
  }

  /** The effect of a mutation on one field. */
  lemma MutatedAt(body: Body, m: Mutation, name: string)
    ensures At(Mutated(body, Some(m)), name) ==
            if name == "" then At(body, name)
            else if LastValue(m.sets, name).Some? then LastValue(m.sets, name)
            else if name in m.removes then None
            else At(body, name)
  {
    RemovedAt(body, m.removes, name);
    AssignedAt(Removed(body, m.removes), m.sets, name);
  }

  // -------------------------------------------------------------------- the merge

  /** The fields by path, the last one of a path winning. */
  function ByPath(fields: seq<Field>): map<string, string> {
    if fields == [] then map[]
    else ByPath(fields[..|fields| - 1])[fields[|fields| - 1].path := fields[|fields| - 1].value]
  }

  lemma {:induction false} ByPathAt(fields: seq<Field>, path: string)
    ensures At(ByPath(fields), path) == LastValue(fields, path)
  {
    if fields != [] {
      ByPathAt(fields[..|fields| - 1], path);
    }
  }

  lemma {:induction false} ByPathConcat(a: seq<Field>, b: seq<Field>)
    ensures ByPath(a + b) == ByPath(a) + ByPath(b)
  {
    if b == [] {
      assert a + b == a;
    } else {
      assert (a + b)[..|a + b| - 1] == a + b[..|b| - 1];
      ByPathConcat(a, b[..|b| - 1]);
    }
  }

  predicate DistinctPaths(fields: seq<Field>) {
    forall i, j :: 0 <= i < j < |fields| ==> fields[i].path != fields[j].path
  }

  predicate DistinctNames(names: seq<string>) {
    forall i, j :: 0 <= i < j < |names| ==> names[i] != names[j]
  }

  /** What the merge may return: one field per path, the route's if it sets the path, and
      every removed name once; in some order. */
  ghost predicate IsMerge(route: Mutation, backend: Mutation, m: Mutation) {
    && DistinctPaths(m.sets)
    && ByPath(m.sets) == ByPath(backend.sets) + ByPath(route.sets)
    && DistinctNames(m.removes)
    && (forall name :: name in m.removes <==> name in backend.removes || name in route.removes)
  }

  /** mergeBodyMutations; iterating over a Go map is choosing the next key at will. */
  method MergeBodyMutations(route: Option<Mutation>, backend: Option<Mutation>) returns (m: Option<Mutation>)
    ensures route.None? ==> m == backend
    ensures backend.None? ==> m == route
    ensures route.Some? && backend.Some? ==> m.Some? && IsMerge(route.value, backend.value, m.value)
  {
    if route.None? {
      return backend;
    }
    if backend.None? {
      return route;
    }
    var both := backend.value.sets + route.value.sets;
    var fieldMap: map<string, string> := map[];
    for i := 0 to |both|
      invariant fieldMap == ByPath(both[..i])
    {
      assert both[..i + 1][..i] == both[..i];
      fieldMap := fieldMap[both[i].path := both[i].value];
    }
    assert both[..|both|] == both;
    ByPathConcat(backend.value.sets, route.value.sets);
    var fields := ListFields(fieldMap);
    var names := ListNames(set n | n in backend.value.removes + route.value.removes);
    m := Some(Mutation(fields, names));
  }

  method ListFields(fieldMap: map<string, string>) returns (fields: seq<Field>)
    ensures DistinctPaths(fields) && ByPath(fields) == fieldMap
  {
    fields := [];
    var rest := fieldMap.Keys;
    while rest != {}
      invariant rest <= fieldMap.Keys && DistinctPaths(fields)
      invariant forall i :: 0 <= i < |fields| ==> fields[i].path !in rest
      invariant ByPath(fields) == fieldMap - rest
    {
      var path :| path in rest;
      var field := Field(path, fieldMap[path]);
      assert (fields + [field])[..|fields|] == fields;
      fields, rest := fields + [field], rest - {path};
    }
  }

  method ListNames(names: set<string>) returns (out: seq<string>)
    ensures DistinctNames(out) && forall n :: n in out <==> n in names
  {
    out := [];
    var rest := names;
    while rest != {}
      invariant rest <= names && DistinctNames(out)
      invariant forall i :: 0 <= i < |out| ==> out[i] !in rest
      invariant forall n :: n in out <==> n in names - rest
    {
      var n :| n in rest;
      out, rest := out + [n], rest - {n};
    }
  }

  // ------------------------------------------------------------- what the merge means

  lemma MergeAt(route: Mutation, backend: Mutation, m: Mutation, path: string)
    requires IsMerge(route, backend, m)
    ensures LastValue(m.sets, path) ==
            if LastValue(route.sets, path).Some? then LastValue(route.sets, path) else LastValue(backend.sets, path)
  {
    ByPathAt(m.sets, path);
    ByPathAt(route.sets, path);
    ByPathAt(backend.sets, path);
    assert At(ByPath(backend.sets) + ByPath(route.sets), path) ==
      if path in ByPath(route.sets) then At(ByPath(route.sets), path) else At(ByPath(backend.sets), path);
  }

  /** The result does not depend on the order in which the maps are iterated. */
  lemma MergeOrderIsInvisible(route: Mutation, backend: Mutation, m: Mutation, m': Mutation, body: Body)
    requires IsMerge(route, backend, m) && IsMerge(route, backend, m')
    ensures Mutated(body, Some(m)) == Mutated(body, Some(m'))
  {
    var t, t' := Mutated(body, Some(m)), Mutated(body, Some(m'));
    forall name ensures At(t, name) == At(t', name) {
      MergeAt(route, backend, m, name);
      MergeAt(route, backend, m', name);
      MutatedAt(body, m, name);
      MutatedAt(body, m', name);
    }
    SameFields(t, t');
  }

  lemma SameFields(a: Body, b: Body)
    requires forall name :: At(a, name) == At(b, name)
    ensures a == b
  {
    assert forall name :: name in a <==> At(a, name).Some?;
    assert forall name :: name in b <==> At(b, name).Some?;
    assert forall name :: name in a ==> At(a, name) == Some(a[name]) && At(b, name) == Some(b[name]);
  }

  /** The fields the route removes and only the backend sets. */
  predicate Revived(route: Mutation, backend: Mutation, name: string) {
    name != "" && name in route.removes && LastValue(route.sets, name).None? && LastValue(backend.sets, name).Some?
  }

  /** On every field the merge is the backend's mutation followed by the route's, except
      exactly on the revived ones, where the backend's value stays. */
  lemma MergeMeaning(route: Mutation, backend: Mutation, m: Mutation, body: Body, name: string)
    requires IsMerge(route, backend, m)
    ensures var merged, inTurn := Mutated(body, Some(m)), Mutated(Mutated(body, Some(backend)), Some(route));
            && (At(merged, name) == At(inTurn, name) <==> !Revived(route, backend, name))
            && (Revived(route, backend, name) ==> At(merged, name) == LastValue(backend.sets, name) && name !in inTurn)
  {
    MergeAt(route, backend, m, name);
    MutatedAt(body, m, name);
    MutatedAt(body, backend, name);
    MutatedAt(Mutated(body, Some(backend)), route, name);
  }

  /** So a merge means "backend, then route" for every body exactly when no name the route
      removes, and does not set, is set by the backend. */
  lemma MergeMeansInTurnIff(route: Option<Mutation>, backend: Option<Mutation>, m: Option<Mutation>, body: Body)
    requires route.None? ==> m == backend
    requires backend.None? ==> m == route
    requires route.Some? && backend.Some? ==> m.Some? && IsMerge(route.value, backend.value, m.value)
    ensures Mutated(body, m) == Mutated(Mutated(body, backend), route) <==>
            !(route.Some? && backend.Some? && exists name :: Revived(route.value, backend.value, name))
  {
    if route.Some? && backend.Some? {
      var merged, inTurn := Mutated(body, m), Mutated(Mutated(body, backend), route);
      forall name ensures At(merged, name) == At(inTurn, name) <==> !Revived(route.value, backend.value, name) {
        MergeMeaning(route.value, backend.value, m.value, body, name);
      }
      if forall name :: !Revived(route.value, backend.value, name) {
        SameFields(merged, inTurn);
      }
    }
  }

  /** The exception is real: the route removes `x`, the backend sets it, and it stays. */
  lemma RouteRemovalIsLost(m: Mutation)
    requires IsMerge(Mutation([], ["x"]), Mutation([Field("x", "1")], []), m)
    ensures Mutated(map[], Some(m)) == map["x" := "1"]
    ensures Mutated(Mutated(map[], Some(Mutation([Field("x", "1")], []))), Some(Mutation([], ["x"]))) == map[]
  {
    var route, backend := Mutation([], ["x"]), Mutation([Field("x", "1")], []);
    var inTurn := Mutated(Mutated(map[], Some(backend)), Some(route));
    assert LastValue(backend.sets, "x") == Some("1");
    forall name ensures At(Mutated(map[], Some(m)), name) == At(map["x" := "1"], name) && At(inTurn, name) == None {
      MergeMeaning(route, backend, m, map[], name);
      MutatedAt(map[], backend, name);
      MutatedAt(Mutated(map[], Some(backend)), route, name);
    }
    SameFields(Mutated(map[], Some(m)), map["x" := "1"]);
    SameFields(inTurn, map[]);
  }
}
