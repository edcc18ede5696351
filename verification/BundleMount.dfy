/** The filter-config bundle as the external processor sees it: the webhook projects the
    index Secret and every part slot into one volume, and the config watcher reads the index
    and the listed parts by path. */
module BundleMount {
  import opened Bundle

  datatype Projection = Projection(secret: string, key: string, path: string)

  function SlotProjection(gw: Gateway, i: nat): Projection
    requires ValidGateway(gw) && i < SLOTS
  {
    Projection(PartName(gw, i), PART_KEY, PartPath(i))
  }

  /** The index, then every slot, whether or not it is in use. */
  function Projections(gw: Gateway): seq<Projection>
    requires ValidGateway(gw)
  {
    [Projection(IndexName(gw), INDEX_KEY, INDEX_KEY)]
    + seq(SLOTS, i requires 0 <= i < SLOTS => SlotProjection(gw, i))
  }

  method ProjectBundle(gw: Gateway) returns (ps: seq<Projection>)
    requires ValidGateway(gw)
    ensures ps == Projections(gw)
  {
    ps := [Projection(IndexName(gw), INDEX_KEY, INDEX_KEY)];
    for i := 0 to SLOTS
      invariant ps == Projections(gw)[..i + 1]
    {
      ps := ps + [Projection(PartName(gw, i), PART_KEY, PartPath(i))];
    }
  }

  // -------------------------------------------------------------------- the volume

  type Volume = map<string, Value>

  /** The files of a volume: one per projection whose Secret and key exist. */
  function Files(s: Store, ps: seq<Projection>): Volume {
    if ps == [] then map[]
    else
      var p, rest := ps[|ps| - 1], Files(s, ps[..|ps| - 1]);
      if p.secret in s && p.key in s[p.secret] then rest[p.path := s[p.secret][p.key]] else rest
  }

  lemma {:induction false} FilesAt(s: Store, ps: seq<Projection>, k: nat)
    requires k < |ps| && forall i, j :: 0 <= i < j < |ps| ==> ps[i].path != ps[j].path
    ensures var v, p := Files(s, ps), ps[k];
            && (p.path in v <==> p.secret in s && p.key in s[p.secret])
            && (p.path in v ==> v[p.path] == s[p.secret][p.key])
  {
    var init := ps[..|ps| - 1];
    if k < |init| {
      FilesAt(s, init, k);
    } else {
      NoFile(s, init, ps[k].path);
    }
  }

  lemma {:induction false} NoFile(s: Store, ps: seq<Projection>, path: string)
    requires forall i :: 0 <= i < |ps| ==> ps[i].path != path
    ensures path !in Files(s, ps)
  {
    if ps != [] {
      NoFile(s, ps[..|ps| - 1], path);
    }
  }

  function Mounted(s: Store, gw: Gateway): Volume
    requires ValidGateway(gw)
  {
    Files(s, Projections(gw))
  }

  /** The volume as it is at each of several reads. */
  function MountedOver(stores: nat -> Store, gw: Gateway): nat -> Volume
    requires ValidGateway(gw)
  {
    (k: nat) => Mounted(stores(k), gw)
  }

  /** A volume, or a store, that no write meets. */
  function Still<T>(t: T): nat -> T {
    _ => t
  }

  lemma ProjectedPaths(gw: Gateway)
    requires ValidGateway(gw)
    ensures |Projections(gw)| == SLOTS + 1
    ensures Projections(gw)[0] == Projection(IndexName(gw), INDEX_KEY, INDEX_KEY)
    ensures forall i: nat :: i < SLOTS ==> Projections(gw)[i + 1] == SlotProjection(gw, i)
    ensures forall i, j :: 0 <= i < j < |Projections(gw)| ==> Projections(gw)[i].path != Projections(gw)[j].path
  {
    var ps := Projections(gw);
    forall i, j | 0 <= i < j < |ps| ensures ps[i].path != ps[j].path {
      PathsDistinct(if i > 0 then i - 1 else 0, j - 1);
      assert ps[j] == SlotProjection(gw, j - 1) && (i > 0 ==> ps[i] == SlotProjection(gw, i - 1));
    }
  }

  /** A slot's file is the chunk of its part Secret. */
  lemma MountedPart(s: Store, gw: Gateway, i: nat)
    requires ValidGateway(gw) && i < SLOTS
    ensures var v, name := Mounted(s, gw), PartName(gw, i);
            && (PartPath(i) in v <==> name in s && PART_KEY in s[name])
            && (PartPath(i) in v ==> v[PartPath(i)] == s[name][PART_KEY])
  {
    ProjectedPaths(gw);
    FilesAt(s, Projections(gw), i + 1);
  }

  lemma MountedIndex(s: Store, gw: Gateway)
    requires ValidGateway(gw)
    ensures var v, name := Mounted(s, gw), IndexName(gw);
            && (INDEX_KEY in v <==> name in s && INDEX_KEY in s[name])
            && (INDEX_KEY in v ==> v[INDEX_KEY] == s[name][INDEX_KEY])
  {
    ProjectedPaths(gw);
    FilesAt(s, Projections(gw), 0);
  }

  // -------------------------------------------------------------------- the watcher

  /** The listed parts from the i-th on, each read by its path from a volume of its own. */
  function ReadFiles(vs: nat -> Volume, parts: seq<Part>, i: nat): ReadResult
    requires i <= |parts|
    decreases |parts| - i
  {
    if i == |parts| then Payload([])
    else
      var v, path := vs(i), parts[i].path;
      if path in v && v[path].Chunk? then
        match ReadFiles(vs, parts, i + 1)
        case Payload(rest) => Payload(v[path].bytes + rest)
        case Rejected => Rejected
      else Rejected
  }

  /** loadConfig: the index file, then the files it lists. The volume is refreshed behind the
      reader's back, so each file comes from whatever it is by then. */
  function Load(v: Volume, vs: nat -> Volume, digest: seq<byte> -> Digest): ReadResult {
    if INDEX_KEY in v && v[INDEX_KEY].IndexDoc? then
      var index := v[INDEX_KEY].index;
      if index.checksum == "" || index.parts == [] then Rejected
      else Checked(index, ReadFiles(vs, index.parts, 0), digest)
    else Rejected
  }

  lemma {:induction false} FilesReadLikeSecrets(stores: nat -> Store, gw: Gateway, chunks: seq<seq<byte>>, i: nat)
    requires ValidGateway(gw) && |chunks| <= SLOTS && i <= |chunks|
    ensures var parts := PartsOf(gw, chunks);
            ReadFiles(MountedOver(stores, gw), parts, i) == FetchOver(stores, parts, i)
    decreases |chunks| - i
  {
    if i < |chunks| {
      MountedPart(stores(i), gw, i);
      FilesReadLikeSecrets(stores, gw, chunks, i + 1);
    }
  }

  /** Behind an index that the controller wrote, reading the mounted files by path is reading
      the part Secrets by name. */
  lemma MountReadsLikeSecrets(t: Store, stores: nat -> Store, w: Write, digest: seq<byte> -> Digest)
    requires Fits(w) && IndexName(w.gw) in t && INDEX_KEY in t[IndexName(w.gw)]
    requires t[IndexName(w.gw)][INDEX_KEY] == IndexDoc(Bundle.Index(w, digest))
    ensures Load(Mounted(t, w.gw), MountedOver(stores, w.gw), digest) == ReadOver(t, stores, w.gw, digest)
  {
    MountedIndex(t, w.gw);
    FilesReadLikeSecrets(stores, w.gw, Chunks(w.payload, PART_SIZE), 0);
  }

  /** After a completed write, from any store, the volume holds the chunks of the payload under
      their numbers and nothing else but the index, and loading it gives the payload. */
  lemma CompletedWriteMounts(s: Store, w: Write, digest: seq<byte> -> Digest)
    requires Fits(w)
    ensures var v, cs := Mounted(After(s, w, digest, SLOTS + 1), w.gw), Chunks(w.payload, PART_SIZE);
            && (forall i: nat :: i < SLOTS ==> (PartPath(i) in v <==> i < |cs|))
            && (forall i: nat :: i < |cs| ==> v[PartPath(i)] == Chunk(cs[i]))
            && Load(v, Still(v), digest) == Payload(w.payload)
  {
    var t, cs := After(s, w, digest, SLOTS + 1), Chunks(w.payload, PART_SIZE);
    var v := Mounted(t, w.gw);
    forall i: nat | i < SLOTS
      ensures PartPath(i) in v <==> i < |cs|
      ensures i < |cs| ==> v[PartPath(i)] == Chunk(cs[i])
    {
      AfterContents(s, w, digest, SLOTS + 1, PartName(w.gw, i));
      MountedPart(t, w.gw, i);
    }
    AfterContents(s, w, digest, SLOTS + 1, IndexName(w.gw));
    MountReadsLikeSecrets(t, Still(t), w, digest);
    SameVolumes(v, Still(v), MountedOver(Still(t), w.gw), digest);
    ReadInOne(t, Still(t), w.gw, digest);
    CompletedWriteReads(s, w, digest);
  }

  lemma SameVolumes(v: Volume, a: nat -> Volume, b: nat -> Volume, digest: seq<byte> -> Digest)
    requires forall k: nat :: a(k) == b(k)
    ensures Load(v, a, digest) == Load(v, b, digest)
  {
    if INDEX_KEY in v && v[INDEX_KEY].IndexDoc? {
      SameFiles(a, b, v[INDEX_KEY].index.parts, 0);
    }
  }

  lemma {:induction false} SameFiles(a: nat -> Volume, b: nat -> Volume, parts: seq<Part>, i: nat)
    requires i <= |parts| && forall k: nat :: a(k) == b(k)
    ensures ReadFiles(a, parts, i) == ReadFiles(b, parts, i)
    decreases |parts| - i
  {
    if i < |parts| {
      SameFiles(a, b, parts, i + 1);
    }
  }

  /** What the watcher loads when it finds the index of one point of a run and each part of
      any later one. */
  function LoadDuring(s: Store, run: seq<Attempt>, digest: seq<byte> -> Digest, gw: Gateway, at: Moment,
                      moments: nat -> Moment): ReadResult
    requires ValidGateway(gw)
  {
    Load(Mounted(StoreAt(s, run, digest, at), gw), MountedOver(StoresAt(s, run, digest, moments), gw), digest)
  }

  /** The watcher is as exact as a reader of the Secrets: over every run of writes cut off
      anywhere, and wherever in it the files were refreshed, it loads nothing or the payload
      last indexed when its index was; and after a completed write that payload. */
  lemma WatcherIsExact(s: Store, run: seq<Attempt>, digest: seq<byte> -> Digest, gw: Gateway, at: Moment,
                       moments: nat -> Moment)
    requires forall p, q :: digest(p) == digest(q) ==> p == q
    requires ValidRun(run) && Separate(run, gw) && During(run, at)
    requires forall i: nat :: During(run, moments(i)) && NotBefore(moments(i), at)
    requires ValidGateway(gw) && IndexName(gw) !in s
    ensures var done, r := LastIndexed(Until(run, at), gw), LoadDuring(s, run, digest, gw, at, moments);
            && (r.Payload? ==> done != [] && r.bytes == done[0].payload)
            && (run != [] && at.attempts == |run| && run[|run| - 1].w.gw == gw && run[|run| - 1].steps == SLOTS + 1 ==>
                  r == Payload(run[|run| - 1].w.payload))
  {
    WatcherReadsLikeSecrets(s, run, digest, gw, at, moments);
    ReaderIsExact(s, run, digest, gw, at, moments);
  }

  lemma WatcherReadsLikeSecrets(s: Store, run: seq<Attempt>, digest: seq<byte> -> Digest, gw: Gateway, at: Moment,
                                moments: nat -> Moment)
    requires ValidRun(run) && Separate(run, gw) && During(run, at) && ValidGateway(gw) && IndexName(gw) !in s
    ensures LoadDuring(s, run, digest, gw, at, moments) == ReadDuring(s, run, digest, gw, at, moments)
  {
    var t, upto := StoreAt(s, run, digest, at), Until(run, at);
    RunIndex(s, upto, digest, gw);
    LastIndexedIsOurs(upto, gw);
    var done := LastIndexed(upto, gw);
    MountedIndex(t, gw);
    if done != [] {
      MountReadsLikeSecrets(t, StoresAt(s, run, digest, moments), done[0], digest);
    }
  }
}
