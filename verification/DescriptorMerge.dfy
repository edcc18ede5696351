/** Merging rate limit descriptor trees: entries with the same key and value are
    combined, children recursively, and the first limit at a path wins. */
module DescriptorMerge {
  import opened Text
  import opened Wrappers

  datatype Limit = Limit(requestsPerUnit: nat, unit: string)
  datatype Descriptor = Descriptor(key: string, value: string, limit: Option<Limit>,
                                   quotaMode: bool, shadowMode: bool, children: seq<Descriptor>)

  const NUL: char := '\0'

  /** The map key under which MergeDescriptors files an entry. */
  function Id(d: Descriptor): string {
    d.key + [NUL] + d.value
  }

  /** Descriptor keys carry no NUL, so an id stands for one (key, value) pair. */
  lemma IdInjective(d: Descriptor, e: Descriptor)
    requires NUL !in d.key && NUL !in e.key
    ensures Id(d) == Id(e) <==> d.key == e.key && d.value == e.value
  {
    if Id(d) == Id(e) {
      CutFirst(d.key, d.value, e.key, e.value, NUL);
    }
  }

  function Size(ds: seq<Descriptor>): nat {
    if ds == [] then 0 else 1 + Size(ds[0].children) + Size(ds[1..])
  }

  lemma {:induction false} SizeConcat(a: seq<Descriptor>, b: seq<Descriptor>)
    ensures Size(a + b) == Size(a) + Size(b)
  {
    if a == [] {
      assert a + b == b;
    } else {
      assert (a + b)[1..] == a[1..] + b;
      SizeConcat(a[1..], b);
    }
  }

  lemma {:induction false} SizeUpdate(a: seq<Descriptor>, i: nat, d: Descriptor)
    requires i < |a|
    ensures Size(a[i := d]) == Size(a) - Size(a[i].children) + Size(d.children)
  {
    if i == 0 {
      assert a[i := d][1..] == a[1..];
    } else {
      assert a[i := d][1..] == a[1..][i - 1 := d];
      SizeUpdate(a[1..], i - 1, d);
    }
  }

  lemma {:induction false} SizeAt(a: seq<Descriptor>, i: nat)
    requires i < |a|
    ensures Size(a[i].children) < Size(a)
  {
    if i > 0 {
      SizeAt(a[1..], i - 1);
    }
  }

  /** The position of an id in a list, or its length. */
  function Find(ds: seq<Descriptor>, id: string): (i: nat)
    ensures i <= |ds|
    ensures i < |ds| ==> Id(ds[i]) == id
    ensures forall j :: 0 <= j < i ==> Id(ds[j]) != id
  {
    if ds == [] || Id(ds[0]) == id then 0 else 1 + Find(ds[1..], id)
  }

  /** The merged list: descriptors are absorbed one after the other. */
  function Merge(ds: seq<Descriptor>): (r: seq<Descriptor>)
    ensures Size(r) <= Size(ds)
    decreases Size(ds), |ds|
  {
    if ds == [] then []
    else
      var init, d := ds[..|ds| - 1], ds[|ds| - 1];
      assert ds == init + [d];
      SizeConcat(init, [d]);
      assert [d][1..] == [];
      var acc := Merge(init);
      var i := Find(acc, Id(d));
      if i == |acc| then
        SizeConcat(acc, [d]);
        Absorb(acc, d, [])
      else
        SizeAt(acc, i);
        SizeConcat(acc[i].children, d.children);
        var children := if d.children == [] then acc[i].children else Merge(acc[i].children + d.children);
        SizeUpdate(acc, i, Combined(acc[i], d, children));
        Absorb(acc, d, children)
  }

  /** Adds `d` at the end, or combines it, with the given children, into its entry. */
  function Absorb(acc: seq<Descriptor>, d: Descriptor, children: seq<Descriptor>): seq<Descriptor> {
    var i := Find(acc, Id(d));
    if i == |acc| then acc + [d] else acc[i := Combined(acc[i], d, children)]
  }

  /** The children that `d` leaves in its entry of `acc`. */
  function MergedChildren(acc: seq<Descriptor>, d: Descriptor): seq<Descriptor> {
    var i := Find(acc, Id(d));
    if i == |acc| then [] else if d.children == [] then acc[i].children else Merge(acc[i].children + d.children)
  }

  lemma MergeSnoc(init: seq<Descriptor>, d: Descriptor)
    ensures Merge(init + [d]) == Absorb(Merge(init), d, MergedChildren(Merge(init), d))
  {
    assert (init + [d])[..|init|] == init;
  }

  function Combined(e: Descriptor, d: Descriptor, children: seq<Descriptor>): Descriptor {
    Descriptor(e.key, e.value, if e.limit.None? then d.limit else e.limit,
               e.quotaMode || d.quotaMode, e.shadowMode || d.shadowMode, children)
  }

  // ------------------------------------------------- what a descriptor list means

  /** What the rate limit service finds at one path. */
  datatype Meaning = Absent | Present(limit: Option<Limit>, quotaMode: bool, shadowMode: bool)

  /** Two findings at one path, the first taking precedence. */
  function Join(a: Meaning, b: Meaning): Meaning {
    if a.Absent? then b
    else if b.Absent? then a
    else Present(if a.limit.None? then b.limit else a.limit, a.quotaMode || b.quotaMode, a.shadowMode || b.shadowMode)
  }

  /** The meaning of a flat list at a path of ids: everything filed under that path,
      in list order, joined. */
  function MeaningAt(ds: seq<Descriptor>, path: seq<string>): Meaning
    requires path != []
    decreases ds
  {
    if ds == [] then Absent else Join(NodeMeaning(ds[0], path), MeaningAt(ds[1..], path))
  }

  function NodeMeaning(d: Descriptor, path: seq<string>): Meaning
    requires path != []
    decreases d
  {
    if Id(d) != path[0] then Absent
    else if |path| == 1 then Present(d.limit, d.quotaMode, d.shadowMode)
    else MeaningAt(d.children, path[1..])
  }

  lemma {:induction false} MeaningConcat(a: seq<Descriptor>, b: seq<Descriptor>, path: seq<string>)
    requires path != []
    ensures MeaningAt(a + b, path) == Join(MeaningAt(a, path), MeaningAt(b, path))
  {
    if a == [] {
      assert a + b == b;
    } else {
      assert (a + b)[1..] == a[1..] + b;
      MeaningConcat(a[1..], b, path);
    }
  }

  predicate Distinct(ds: seq<Descriptor>) {
    forall i, j :: 0 <= i < j < |ds| ==> Id(ds[i]) != Id(ds[j])
  }

  lemma {:induction false} MeaningDistinct(ds: seq<Descriptor>, i: nat, path: seq<string>)
    requires path != [] && Distinct(ds) && i <= |ds|
    requires if i < |ds| then Id(ds[i]) == path[0] else forall j :: 0 <= j < |ds| ==> Id(ds[j]) != path[0]
    ensures MeaningAt(ds, path) == if i < |ds| then NodeMeaning(ds[i], path) else Absent
  {
    if ds != [] {
      if i == 0 {
        MeaningDistinct(ds[1..], |ds| - 1, path);
      } else {
        MeaningDistinct(ds[1..], i - 1, path);
      }
    }
  }

  function Ids(ds: seq<Descriptor>): seq<string> {
    seq(|ds|, i requires 0 <= i < |ds| => Id(ds[i]))
  }

  /** A list without its repetitions, in order of first appearance. */
  function FirstSeen(ids: seq<string>): (r: seq<string>)
    ensures forall i, j :: 0 <= i < j < |r| ==> r[i] != r[j]
    ensures forall id :: id in r <==> id in ids
  {
    if ids == [] then []
    else
      var r := FirstSeen(ids[..|ids| - 1]);
      assert ids == ids[..|ids| - 1] + [ids[|ids| - 1]];
      if ids[|ids| - 1] in r then r else r + [ids[|ids| - 1]]
  }

  lemma AbsorbIds(acc: seq<Descriptor>, d: Descriptor, children: seq<Descriptor>)
    ensures Ids(Absorb(acc, d, children)) == if Id(d) in Ids(acc) then Ids(acc) else Ids(acc) + [Id(d)]
  {
    var i := Find(acc, Id(d));
    if i < |acc| {
      assert Ids(acc)[i] == Id(d);
      assert Ids(Absorb(acc, d, children)) == Ids(acc);
    } else {
      assert Id(d) !in Ids(acc);
      assert Ids(Absorb(acc, d, children)) == Ids(acc) + [Id(d)];
    }
  }

  lemma FirstSeenSnoc(ids: seq<string>, id: string)
    ensures FirstSeen(ids + [id]) == var r := FirstSeen(ids); if id in r then r else r + [id]
  {
    assert (ids + [id])[..|ids|] == ids;
  }

  lemma IdsSnoc(ds: seq<Descriptor>, d: Descriptor)
    ensures Ids(ds + [d]) == Ids(ds) + [Id(d)]
  {}

  lemma DistinctIds(ds: seq<Descriptor>, ids: seq<string>)
    requires Ids(ds) == FirstSeen(ids)
    ensures Distinct(ds)
  {
    assert forall i :: 0 <= i < |ds| ==> Ids(ds)[i] == Id(ds[i]);
  }

  /** The merged list has one entry per id, in order of first appearance. */
  lemma {:induction false} MergeIds(ds: seq<Descriptor>)
    ensures Ids(Merge(ds)) == FirstSeen(Ids(ds))
    ensures Distinct(Merge(ds))
  {
    if ds != [] {
      var init, d := ds[..|ds| - 1], ds[|ds| - 1];
      assert ds == init + [d];
      MergeIds(init);
      MergeSnoc(init, d);
      AbsorbIds(Merge(init), d, MergedChildren(Merge(init), d));
      IdsSnoc(init, d);
      FirstSeenSnoc(Ids(init), Id(d));
    }
    DistinctIds(Merge(ds), Ids(ds));
  }

  /** Merging preserves meaning: at every path the merged tree yields the first limit
      of the input in list order, and the joined mode flags. */
  lemma {:induction false} MergePreservesMeaning(ds: seq<Descriptor>, path: seq<string>)
    requires path != []
    ensures MeaningAt(Merge(ds), path) == MeaningAt(ds, path)
    decreases Size(ds), |ds|
  {
    if ds != [] {
      var init, d := ds[..|ds| - 1], ds[|ds| - 1];
      var acc := Merge(init);
      assert ds == init + [d];
      SizeConcat(init, [d]);
      assert [d][1..] == [];
      MergePreservesMeaning(init, path);
      MergeSnoc(init, d);
      MergeIds(init);
      MeaningConcat(init, [d], path);
      var i := Find(acc, Id(d));
      if i < |acc| && |path| > 1 {
        SizeAt(acc, i);
        SizeConcat(acc[i].children, d.children);
        MergePreservesMeaning(acc[i].children + d.children, path[1..]);
        if d.children == [] {
          assert acc[i].children + d.children == acc[i].children;
        }
      }
      AbsorbMeaning(acc, d, MergedChildren(acc, d), path);
    }
  }

  lemma AbsorbMeaning(acc: seq<Descriptor>, d: Descriptor, children: seq<Descriptor>, path: seq<string>)
    requires path != [] && Distinct(acc)
    requires var i := Find(acc, Id(d));
             i < |acc| && |path| > 1 ==>
               MeaningAt(children, path[1..]) == MeaningAt(acc[i].children + d.children, path[1..])
    ensures MeaningAt(Absorb(acc, d, children), path) == Join(MeaningAt(acc, path), NodeMeaning(d, path))
  {
    var i := Find(acc, Id(d));
    if i == |acc| {
      MeaningConcat(acc, [d], path);
      assert [d][1..] == [];
    } else {
      var e := Combined(acc[i], d, children);
      assert Id(e) == Id(acc[i]);
      assert forall k :: 0 <= k < |acc| ==> Id(acc[i := e][k]) == Id(acc[k]);
      var j := Find(acc, path[0]);
      MeaningDistinct(acc, j, path);
      MeaningDistinct(acc[i := e], j, path);
      if |path| > 1 {
        MeaningConcat(acc[i].children, d.children, path[1..]);
      }
    }
  }

  /** No two siblings anywhere share an id. */
  predicate DupFree(ds: seq<Descriptor>)
    decreases ds
  {
    Distinct(ds) && forall i :: 0 <= i < |ds| ==> DupFree(ds[i].children)
  }

  /** Duplicate-free subtrees merge into a duplicate-free tree. */
  lemma {:induction false} MergeDupFree(ds: seq<Descriptor>)
    requires forall i :: 0 <= i < |ds| ==> DupFree(ds[i].children)
    ensures DupFree(Merge(ds))
    decreases Size(ds), |ds|
  {
    if ds != [] {
      var init, d := ds[..|ds| - 1], ds[|ds| - 1];
      assert ds == init + [d];
      SizeConcat(init, [d]);
      MergeIds(ds);
      MergeSnoc(init, d);
      MergeDupFree(init);
      var acc := Merge(init);
      var i := Find(acc, Id(d));
      if i < |acc| {
        SizeAt(acc, i);
        SizeConcat(acc[i].children, d.children);
        MergeDupFree(acc[i].children + d.children);
      }
      AbsorbDupFree(acc, d, MergedChildren(acc, d));
    }
  }

  lemma AbsorbDupFree(acc: seq<Descriptor>, d: Descriptor, children: seq<Descriptor>)
    requires DupFree(acc) && DupFree(d.children) && Distinct(Absorb(acc, d, children))
    requires Find(acc, Id(d)) < |acc| ==> DupFree(children)
    ensures DupFree(Absorb(acc, d, children))
  {}

  // ------------------------------------------------------------------- the code

  datatype Entry = Entry(desc: Descriptor, order: nat)

  /** `byKey` holds exactly the list `acc`, each entry with its position. */
  ghost predicate Holds(byKey: map<string, Entry>, acc: seq<Descriptor>) {
    && (forall id :: id in byKey <==> Find(acc, id) < |acc|)
    && (forall id :: id in byKey ==> byKey[id] == Entry(acc[Find(acc, id)], Find(acc, id)))
  }

  lemma FindAbsorb(acc: seq<Descriptor>, d: Descriptor, children: seq<Descriptor>, id: string)
    ensures var r := Absorb(acc, d, children);
            && |acc| <= |r|
            && (Find(acc, id) < |acc| || id == Id(d) ==> Find(r, id) == Find(acc, id) < |r|)
            && (Find(acc, id) == |acc| && id != Id(d) ==> Find(r, id) == |r|)
            && (Find(acc, id) < |acc| && id != Id(d) ==> r[Find(r, id)] == acc[Find(acc, id)])
  {
    var r, i, j := Absorb(acc, d, children), Find(acc, Id(d)), Find(acc, id);
    assert forall k :: 0 <= k < |acc| ==> Id(r[k]) == Id(acc[k]);
    assert |r| > |acc| ==> r[|acc|] == d;
    if j < |acc| || id == Id(d) {
      assert Id(r[j]) == id;
    }
  }

  lemma AbsorbHolds(byKey: map<string, Entry>, acc: seq<Descriptor>, d: Descriptor, children: seq<Descriptor>)
    requires Holds(byKey, acc)
    ensures var e := if Id(d) in byKey then Entry(Combined(byKey[Id(d)].desc, d, children), byKey[Id(d)].order)
                     else Entry(d, |acc|);
            Holds(byKey[Id(d) := e], Absorb(acc, d, children))
  {
    forall id
      ensures var r := Absorb(acc, d, children);
              && |acc| <= |r|
              && (Find(acc, id) < |acc| || id == Id(d) ==> Find(r, id) == Find(acc, id) < |r|)
              && (Find(acc, id) == |acc| && id != Id(d) ==> Find(r, id) == |r|)
              && (Find(acc, id) < |acc| && id != Id(d) ==> r[Find(r, id)] == acc[Find(acc, id)])
    {
      FindAbsorb(acc, d, children, id);
    }
  }

  method MergeDescriptors(descs: seq<Descriptor>) returns (result: seq<Descriptor>)
    ensures result == Merge(descs)
    decreases Size(descs), 1
  {
    var byKey: map<string, Entry> := map[];
    var order := 0;
    for n := 0 to |descs|
      invariant order == |Merge(descs[..n])| && Holds(byKey, Merge(descs[..n]))
    {
      MergeNext(descs, n);
      SmallerCalls(descs, n);
      byKey, order := AbsorbOne(byKey, order, descs[n], Merge(descs[..n]), Size(descs));
    }
    assert descs[..|descs|] == descs;
    MergeIds(descs);
    result := InInsertionOrder(byKey, Merge(descs));
  }

  /** The body of the loop, on the entries `acc` merged so far. */
  method AbsorbOne(byKey: map<string, Entry>, order: nat, d: Descriptor, ghost acc: seq<Descriptor>, ghost bound: nat)
    returns (merged: map<string, Entry>, next: nat)
    requires order == |acc| && Holds(byKey, acc)
    requires forall i :: 0 <= i < |acc| ==> Size(acc[i].children + d.children) < bound
    ensures var r := Absorb(acc, d, MergedChildren(acc, d)); next == |r| && Holds(merged, r)
    decreases bound, 0
  {
    AbsorbHolds(byKey, acc, d, MergedChildren(acc, d));
    var key := d.key + [NUL] + d.value;
    if key !in byKey {
      return byKey[key := Entry(d, order)], order + 1;
    }
    var existing := byKey[key];
    var children := existing.desc.children;
    if |d.children| > 0 {
      children := MergeDescriptors(existing.desc.children + d.children);
    }
    return byKey[key := Entry(Combined(existing.desc, d, children), existing.order)], order;
  }

  lemma MergeNext(descs: seq<Descriptor>, n: nat)
    requires n < |descs|
    ensures Merge(descs[..n + 1]) == Absorb(Merge(descs[..n]), descs[n], MergedChildren(Merge(descs[..n]), descs[n]))
  {
    assert descs[..n + 1] == descs[..n] + [descs[n]];
    MergeSnoc(descs[..n], descs[n]);
  }

  /** The recursive calls are on fewer descriptors. */
  lemma SmallerCalls(descs: seq<Descriptor>, n: nat)
    requires n < |descs|
    ensures var acc := Merge(descs[..n]);
            forall i :: 0 <= i < |acc| ==> Size(acc[i].children + descs[n].children) < Size(descs)
  {
    var acc := Merge(descs[..n]);
    assert descs == descs[..n] + descs[n..];
    SizeConcat(descs[..n], descs[n..]);
    forall i | 0 <= i < |acc| ensures Size(acc[i].children + descs[n].children) < Size(descs) {
      SizeAt(acc, i);
      SizeConcat(acc[i].children, descs[n].children);
    }
  }

  /** Reads the entries back in insertion order; the map delivers them in any order. */
  method InInsertionOrder(byKey: map<string, Entry>, ghost acc: seq<Descriptor>) returns (result: seq<Descriptor>)
    requires Holds(byKey, acc) && Distinct(acc)
    ensures result == acc
  {
    var sorted := ByOrder(byKey, acc);
    result := [];
    var j := 0;
    while j in sorted
      invariant 0 <= j <= |acc| && result == acc[..j]
      decreases |acc| - j
    {
      result := result + [sorted[j]];
      j := j + 1;
    }
  }

  method ByOrder(byKey: map<string, Entry>, ghost acc: seq<Descriptor>) returns (sorted: map<nat, Descriptor>)
    requires Holds(byKey, acc) && Distinct(acc)
    ensures forall j: nat :: j in sorted <==> j < |acc|
    ensures forall j :: j in sorted ==> sorted[j] == acc[j]
  {
    EntriesAt(byKey, acc);
    sorted := Place(byKey);
    forall j: nat | j < |acc| ensures j in sorted {
      assert byKey[Id(acc[j])].order == j;
    }
  }

  /** Every entry under its order; which of two entries with one order stays is left open. */
  method Place(byKey: map<string, Entry>) returns (sorted: map<nat, Descriptor>)
    ensures forall id :: id in byKey ==> byKey[id].order in sorted
    ensures forall j :: j in sorted ==> exists id :: id in byKey && byKey[id] == Entry(sorted[j], j)
  {
    sorted := map[];
    var rest := byKey.Keys;
    while rest != {}
      invariant rest <= byKey.Keys
      invariant forall id :: id in byKey && id !in rest ==> byKey[id].order in sorted
      invariant forall j :: j in sorted ==> exists id :: id in byKey && byKey[id] == Entry(sorted[j], j)
    {
      var id :| id in rest;
      sorted := sorted[byKey[id].order := byKey[id].desc];
      rest := rest - {id};
    }
  }

  /** Every entry stands for a position of the list and every position has its entry. */
  lemma EntriesAt(byKey: map<string, Entry>, acc: seq<Descriptor>)
    requires Holds(byKey, acc) && Distinct(acc)
    ensures forall id :: id in byKey ==> byKey[id].order < |acc| && byKey[id].desc == acc[byKey[id].order]
    ensures forall j :: 0 <= j < |acc| ==> Id(acc[j]) in byKey && byKey[Id(acc[j])].order == j
  {
    forall j | 0 <= j < |acc| ensures Id(acc[j]) in byKey && byKey[Id(acc[j])].order == j {
      assert Find(acc, Id(acc[j])) == j;
    }
  }
}
