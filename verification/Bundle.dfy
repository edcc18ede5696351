/** The sharded filter-config bundle: a payload cut into at most eight part
    Secrets and one index Secret that is written last, and the reader that
    reassembles and checks it. */
module Bundle {
  import opened Text

  type byte = b: int | 0 <= b < 256
  /** A checksum before hexadecimal encoding. Its length is left open, so that
      "no two payloads share a checksum" is a satisfiable idealisation of SHA-256. */
  type Digest = d: seq<byte> | d != [] witness [0]

  const PART_SIZE: nat := 700 * 1024
  const SLOTS: nat := 8
  const PART_KEY := "chunk"
  const INDEX_KEY := "index.yaml"

  // ---------------------------------------------------------------- splitting

  function Concat(chunks: seq<seq<byte>>): seq<byte> {
    if chunks == [] then [] else chunks[0] + Concat(chunks[1..])
  }

  /** The chunks of a payload; the empty payload has one empty chunk. */
  function Chunks(raw: seq<byte>, size: nat): seq<seq<byte>>
    requires size > 0
  {
    if |raw| <= size then [raw] else [raw[..size]] + Chunks(raw[size..], size)
  }

  /** Every chunk but the last is full. */
  predicate WellCut(chunks: seq<seq<byte>>, size: nat) {
    && chunks != []
    && (forall i :: 0 <= i < |chunks| - 1 ==> |chunks[i]| == size)
    && (forall i :: 0 <= i < |chunks| ==> |chunks[i]| <= size)
  }

  lemma {:induction false} ChunksRejoin(raw: seq<byte>, size: nat)
    requires size > 0
    ensures Concat(Chunks(raw, size)) == raw && WellCut(Chunks(raw, size), size)
  {
    if |raw| <= size {
      assert Chunks(raw, size)[1..] == [];
    } else {
      ChunksRejoin(raw[size..], size);
      assert Chunks(raw, size)[1..] == Chunks(raw[size..], size);
      assert raw == raw[..size] + raw[size..];
    }
  }

  /** The slot limit is exactly a byte limit. */
  lemma {:induction false} ChunkCount(raw: seq<byte>, size: nat, n: nat)
    requires size > 0 && n > 0
    ensures |Chunks(raw, size)| <= n <==> |raw| <= n * size
  {
    if |raw| > size {
      if n == 1 {
        assert |Chunks(raw[size..], size)| >= 1;
      } else {
        ChunkCount(raw[size..], size, n - 1);
        assert (n - 1) * size == n * size - size;
      }
    } else {
      assert size <= n * size;
    }
  }

  method SplitBytes(raw: seq<byte>, chunkSize: nat) returns (chunks: seq<seq<byte>>)
    requires chunkSize > 0
    ensures chunks == Chunks(raw, chunkSize)
  {
    if |raw| == 0 {
      return [[]];
    }
    chunks := [];
    var start := 0;
    while start < |raw|
      invariant 0 <= start
      invariant start < |raw| ==> Chunks(raw, chunkSize) == chunks + Chunks(raw[start..], chunkSize)
      invariant start >= |raw| ==> Chunks(raw, chunkSize) == chunks
      decreases |raw| - start
    {
      var end := start + chunkSize;
      if end > |raw| {
        end := |raw|;
      }
      assert raw[start..][..end - start] == raw[start..end];
      assert end < |raw| ==> raw[start..][chunkSize..] == raw[end..];
      assert end == |raw| ==> raw[start..end] == raw[start..];
      chunks := chunks + [raw[start..end]];
      start := start + chunkSize;
    }
  }

  // ------------------------------------------------------------------- naming

  /** `hash` is the 12 hexadecimal digits of `shortStableHash(namespace/name)`. */
  datatype Gateway = Gateway(name: string, namespace: string, hash: string)

  predicate ValidGateway(gw: Gateway) {
    |gw.hash| == 12 && '-' !in gw.hash
  }

  const NAME_MAX: nat := 253

  function TrimLeft(s: string): (r: string)
    ensures |r| <= |s|
  {
    if s != "" && s[0] == '-' then TrimLeft(s[1..]) else s
  }

  function TrimRight(s: string): (r: string)
    ensures |r| <= |s|
  {
    if s != "" && s[|s| - 1] == '-' then TrimRight(s[..|s| - 1]) else s
  }

  function IndexName(gw: Gateway): string
    requires ValidGateway(gw)
  {
    var base := TrimRight(TrimLeft(gw.name + "-" + gw.namespace));
    var name := base + "-" + gw.hash;
    if |name| <= NAME_MAX then name
    else
      var trimmed := TrimRight(TrimLeft(base[..NAME_MAX - 1 - |gw.hash|]));
      if trimmed == "" then gw.hash else trimmed + "-" + gw.hash
  }

  function PartSuffix(i: nat): string
    requires i < 10
  {
    "-part-00" + [Digit(i)]
  }

  function PartName(gw: Gateway, i: nat): string
    requires ValidGateway(gw) && i < 10
  {
    var base := gw.name + "-" + gw.namespace;
    var limit := NAME_MAX - |gw.hash| - |PartSuffix(i)| - 1;
    var kept := if |base| > limit then TrimRight(base[..limit]) else base;
    kept + "-" + gw.hash + PartSuffix(i)
  }

  function PartPath(i: nat): string
    requires i < 10
  {
    "parts/00" + [Digit(i)]
  }

  /** Every slot has a path of its own: its number in three digits. */
  lemma PathsAreNumbered(i: nat)
    requires i < SLOTS
    ensures PartPath(i) == ["parts/000", "parts/001", "parts/002", "parts/003",
                            "parts/004", "parts/005", "parts/006", "parts/007"][i]
  {}

  lemma PathsDistinct(i: nat, j: nat)
    requires i < SLOTS && j < SLOTS
    ensures PartPath(i) == PartPath(j) <==> i == j
    ensures PartPath(i) != INDEX_KEY
  {
    assert PartPath(i)[8] == Digit(i) && PartPath(j)[8] == Digit(j);
    assert PartPath(i)[0] == 'p' && INDEX_KEY[0] == 'i';
  }

  /** `s` cut at `j` with the dashes at its end gone. */
  predicate CutAt(s: string, j: nat) {
    j <= |s| && (j > 0 ==> s[j - 1] != '-') && forall k :: j <= k < |s| ==> s[k] == '-'
  }

  lemma {:induction false} TrimRightCuts(s: string) returns (j: nat)
    ensures CutAt(s, j) && TrimRight(s) == s[..j]
  {
    j := |s|;
    if s != "" && s[|s| - 1] == '-' {
      j := TrimRightCuts(s[..|s| - 1]);
      assert s[..|s| - 1][..j] == s[..j];
    } else {
      assert s[..j] == s;
    }
  }

  /** Names of objects neither begin nor end with a dash. */
  predicate Named(gw: Gateway) {
    && ValidGateway(gw) && gw.name != "" && gw.name[0] != '-'
    && gw.namespace != "" && gw.namespace[|gw.namespace| - 1] != '-'
  }

  /** The index Secret is called after gateway, namespace and hash; a name too long for
      Kubernetes loses the end of the first two, and no dash is doubled by that. */
  lemma IndexNameIs(gw: Gateway)
    requires Named(gw)
    ensures var base := gw.name + "-" + gw.namespace;
            if |base| <= 240 then IndexName(gw) == base + "-" + gw.hash
            else exists j: nat :: CutAt(base[..240], j) && j > 0 && IndexName(gw) == base[..j] + "-" + gw.hash
  {
    var base := gw.name + "-" + gw.namespace;
    assert base[0] == gw.name[0] && base[|base| - 1] == gw.namespace[|gw.namespace| - 1];
    if |base| > 240 {
      var j := TrimRightCuts(base[..240]);
      assert j > 0 && base[..240][..j] == base[..j];
    }
  }

  /** A part Secret ends in its number besides. */
  lemma PartNameIs(gw: Gateway, i: nat)
    requires ValidGateway(gw) && i < 10
    ensures var base := gw.name + "-" + gw.namespace;
            if |base| <= 231 then PartName(gw, i) == base + "-" + gw.hash + "-part-00" + [Digit(i)]
            else exists j: nat :: CutAt(base[..231], j)
                                  && PartName(gw, i) == base[..j] + "-" + gw.hash + "-part-00" + [Digit(i)]
  {
    var base := gw.name + "-" + gw.namespace;
    assert |PartSuffix(i)| == 9;
    var end := "-part-00" + [Digit(i)];
    assert forall kept: string :: kept + "-" + gw.hash + end == kept + "-" + gw.hash + "-part-00" + [Digit(i)];
    if |base| > 231 {
      var j := TrimRightCuts(base[..231]);
      assert base[..231][..j] == base[..j];
    }
  }

  lemma IndexNameEnds(gw: Gateway)
    requires ValidGateway(gw)
    ensures 12 <= |IndexName(gw)| <= NAME_MAX
    ensures IndexName(gw)[|IndexName(gw)| - 12..] == gw.hash
  {}

  lemma PartNameEnds(gw: Gateway, i: nat)
    requires ValidGateway(gw) && i < 10
    ensures var n := PartName(gw, i);
            21 <= |n| <= NAME_MAX && n[|n| - 9..] == PartSuffix(i) && n[|n| - 21..|n| - 9] == gw.hash
  {}

  /** A name that ends in a hash is not one that ends in a part suffix. */
  lemma EndsDiffer(n: string, hash: string, p: string, j: nat)
    requires |hash| == 12 && '-' !in hash && |n| >= 12 && n[|n| - 12..] == hash
    requires j < 10 && |p| >= 21 && p[|p| - 9..] == PartSuffix(j)
    ensures n != p
  {
    assert p[|p| - 4] == p[|p| - 9..][5] == PartSuffix(j)[5] == '-';
    assert n[|n| - 4] == n[|n| - 12..][8] == hash[8];
  }

  lemma SuffixInjective(i: nat, j: nat)
    requires i < 10 && j < 10
    ensures PartSuffix(i) == PartSuffix(j) <==> i == j
  {
    assert PartSuffix(i)[8] == Digit(i) && PartSuffix(j)[8] == Digit(j);
  }

  /** No Secret name serves two purposes or two gateways. */
  lemma NamesDisjoint(gw: Gateway, gw': Gateway, i: nat, j: nat)
    requires ValidGateway(gw) && ValidGateway(gw') && i < 10 && j < 10
    requires gw == gw' || gw.hash != gw'.hash
    ensures IndexName(gw) != PartName(gw', j)
    ensures IndexName(gw) == IndexName(gw') <==> gw == gw'
    ensures PartName(gw, i) == PartName(gw', j) <==> gw == gw' && i == j
  {
    IndexNameEnds(gw);
    IndexNameEnds(gw');
    PartNameEnds(gw, i);
    PartNameEnds(gw', j);
    EndsDiffer(IndexName(gw), gw.hash, PartName(gw', j), j);
    SuffixInjective(i, j);
  }

  lemma OwnNamesDistinct(gw: Gateway)
    requires ValidGateway(gw)
    ensures forall i: nat :: i < SLOTS ==> IndexName(gw) != PartName(gw, i)
    ensures forall i: nat, j: nat :: i < SLOTS && j < SLOTS && PartName(gw, i) == PartName(gw, j) ==> i == j
  {
    forall i: nat | i < SLOTS ensures IndexName(gw) != PartName(gw, i) {
      NamesDisjoint(gw, gw, i, i);
    }
    forall i: nat, j: nat | i < SLOTS && j < SLOTS ensures PartName(gw, i) == PartName(gw, j) ==> i == j {
      NamesDisjoint(gw, gw, i, j);
    }
  }

  // ------------------------------------------------------------ stored objects

  datatype Part = Part(name: string, path: string, size: nat)
  datatype BundleIndex = BundleIndex(uuid: string, checksum: string, parts: seq<Part>)
  datatype Value = Chunk(bytes: seq<byte>) | IndexDoc(index: BundleIndex)
  type Secret = map<string, Value>
  type Store = map<string, Secret>

  function HexDigit(d: nat): char
    requires d < 16
  {
    if d < 10 then '0' + d as char else 'a' + (d - 10) as char
  }

  function Hex(d: seq<byte>): string {
    if d == [] then "" else [HexDigit(d[0] / 16), HexDigit(d[0] % 16)] + Hex(d[1..])
  }

  function ToLower(s: string): string {
    seq(|s|, i requires 0 <= i < |s| => if 'A' <= s[i] <= 'Z' then s[i] - 'A' + 'a' else s[i])
  }

  lemma {:induction false} HexIsLower(d: seq<byte>)
    ensures ToLower(Hex(d)) == Hex(d)
  {
    if d != [] {
      HexIsLower(d[1..]);
      var s, t := Hex(d), Hex(d[1..]);
      forall i | 0 <= i < |s| ensures ToLower(s)[i] == s[i] {
        if i >= 2 {
          assert s[i] == t[i - 2] && ToLower(t)[i - 2] == t[i - 2];
        }
      }
    }
  }

  /** However the letters of a checksum are cased, it is compared as the same. */
  lemma CaseIsIgnored(d: seq<byte>, u: string)
    requires |u| == |Hex(d)|
    requires forall i :: 0 <= i < |u| ==>
               u[i] == Hex(d)[i] || ('a' <= Hex(d)[i] <= 'f' && u[i] == Hex(d)[i] - 'a' + 'A')
    ensures ToLower(u) == Hex(d)
  {
    HexIsLower(d);
    forall i | 0 <= i < |u| ensures ToLower(u)[i] == Hex(d)[i] {
      assert ToLower(Hex(d))[i] == Hex(d)[i];
    }
  }

  lemma {:induction false} HexInjective(d: seq<byte>, e: seq<byte>)
    requires Hex(d) == Hex(e)
    ensures d == e
  {
    if d != [] {
      var s, t := Hex(d), Hex(e);
      assert s[0] == HexDigit(d[0] / 16) && t[0] == HexDigit(e[0] / 16);
      assert s[1] == HexDigit(d[0] % 16) && t[1] == HexDigit(e[0] % 16);
      assert s[2..] == Hex(d[1..]) && t[2..] == Hex(e[1..]);
      HexInjective(d[1..], e[1..]);
      assert d == [d[0]] + d[1..] && e == [e[0]] + e[1..];
    }
  }

  function PartsOf(gw: Gateway, chunks: seq<seq<byte>>): seq<Part>
    requires ValidGateway(gw) && |chunks| <= SLOTS
  {
    seq(|chunks|, i requires 0 <= i < |chunks| => Part(PartName(gw, i), PartPath(i), |chunks[i]|))
  }

  predicate DistinctPaths(parts: seq<Part>) {
    forall i, j :: 0 <= i < j < |parts| ==> parts[i].path != parts[j].path
  }

  lemma PartsHavePaths(gw: Gateway, chunks: seq<seq<byte>>)
    requires ValidGateway(gw) && |chunks| <= SLOTS
    ensures DistinctPaths(PartsOf(gw, chunks))
  {
    forall i, j | 0 <= i < j < |chunks| ensures PartPath(i) != PartPath(j) {
      PathsDistinct(i, j);
    }
  }

  // ------------------------------------------------- what a write does, stepwise

  datatype Write = Write(gw: Gateway, uuid: string, payload: seq<byte>)

  predicate Fits(w: Write) {
    ValidGateway(w.gw) && |Chunks(w.payload, PART_SIZE)| <= SLOTS
  }

  function Index(w: Write, digest: seq<byte> -> Digest): BundleIndex
    requires Fits(w)
  {
    BundleIndex(w.uuid, Hex(digest(w.payload)), PartsOf(w.gw, Chunks(w.payload, PART_SIZE)))
  }

  /** One slot: its part is written, or deleted when the payload has no such chunk. */
  function SlotWritten(s: Store, gw: Gateway, chunks: seq<seq<byte>>, i: nat): Store
    requires ValidGateway(gw) && i < SLOTS
  {
    if i < |chunks| then s[PartName(gw, i) := map[PART_KEY := Chunk(chunks[i])]] else s - {PartName(gw, i)}
  }

  function IndexWritten(s: Store, w: Write, digest: seq<byte> -> Digest): Store
    requires Fits(w)
  {
    var name := IndexName(w.gw);
    s[name := (if name in s then s[name] else map[])[INDEX_KEY := IndexDoc(Index(w, digest))]]
  }

  /** The store after the first `k` writes of a bundle: slots in order, then the index. */
  function After(s: Store, w: Write, digest: seq<byte> -> Digest, k: nat): Store
    requires Fits(w) && k <= SLOTS + 1
  {
    if k == 0 then s
    else
      var before := After(s, w, digest, k - 1);
      if k == SLOTS + 1 then IndexWritten(before, w, digest)
      else SlotWritten(before, w.gw, Chunks(w.payload, PART_SIZE), k - 1)
  }

  /** What each Secret holds after `k` steps; nothing else is touched. */
  lemma {:induction false} AfterContents(s: Store, w: Write, digest: seq<byte> -> Digest, k: nat, name: string)
    requires Fits(w) && k <= SLOTS + 1
    ensures var t, cs := After(s, w, digest, k), Chunks(w.payload, PART_SIZE);
            && (forall i: nat :: i < SLOTS && name == PartName(w.gw, i) && i < k ==> PartWritten(t, cs, name, i))
            && (name == IndexName(w.gw) && k == SLOTS + 1 ==>
                  name in t && INDEX_KEY in t[name] && t[name][INDEX_KEY] == IndexDoc(Index(w, digest)))
            && ((forall i: nat :: i < SLOTS && i < k ==> name != PartName(w.gw, i))
                && (k == SLOTS + 1 ==> name != IndexName(w.gw)) ==>
                  (name in t <==> name in s) && (name in s ==> t[name] == s[name]))
  {
    forall i: nat | i < SLOTS && name == PartName(w.gw, i) && i < k
      ensures PartWritten(After(s, w, digest, k), Chunks(w.payload, PART_SIZE), name, i)
    {
      AfterPart(s, w, digest, k, i);
    }
    if && (forall i: nat :: i < SLOTS && i < k ==> name != PartName(w.gw, i))
       && (k == SLOTS + 1 ==> name != IndexName(w.gw)) {
      AfterOther(s, w, digest, k, name);
    }
  }

  predicate PartWritten(t: Store, cs: seq<seq<byte>>, name: string, i: nat) {
    if i < |cs| then name in t && t[name] == map[PART_KEY := Chunk(cs[i])] else name !in t
  }

  lemma {:induction false} AfterPart(s: Store, w: Write, digest: seq<byte> -> Digest, k: nat, i: nat)
    requires Fits(w) && i < k <= SLOTS + 1 && i < SLOTS
    ensures PartWritten(After(s, w, digest, k), Chunks(w.payload, PART_SIZE), PartName(w.gw, i), i)
  {
    if i < k - 1 {
      AfterPart(s, w, digest, k - 1, i);
      if k - 1 < SLOTS {
        NamesDisjoint(w.gw, w.gw, i, k - 1);
      } else {
        NamesDisjoint(w.gw, w.gw, i, i);
      }
    }
  }

  lemma {:induction false} AfterOther(s: Store, w: Write, digest: seq<byte> -> Digest, k: nat, name: string)
    requires Fits(w) && k <= SLOTS + 1 && forall i: nat :: i < SLOTS && i < k ==> name != PartName(w.gw, i)
    requires k == SLOTS + 1 ==> name != IndexName(w.gw)
    ensures var t := After(s, w, digest, k); (name in t <==> name in s) && (name in s ==> t[name] == s[name])
  {
    if k > 0 {
      AfterOther(s, w, digest, k - 1, name);
    }
  }

  // ------------------------------------------------------------------ the reader

  datatype ReadResult = Payload(bytes: seq<byte>) | Rejected

  function Fetch(s: Store, parts: seq<Part>): ReadResult {
    if parts == [] then Payload([])
    else
      var name := parts[0].name;
      if name in s && PART_KEY in s[name] && s[name][PART_KEY].Chunk? then
        match Fetch(s, parts[1..])
        case Payload(rest) => Payload(s[name][PART_KEY].bytes + rest)
        case Rejected => Rejected
      else Rejected
  }

  /** The same with the i-th part read from a store of its own. */
  function FetchOver(stores: nat -> Store, parts: seq<Part>, i: nat): ReadResult
    requires i <= |parts|
    decreases |parts| - i
  {
    if i == |parts| then Payload([])
    else
      var s, name := stores(i), parts[i].name;
      if name in s && PART_KEY in s[name] && s[name][PART_KEY].Chunk? then
        match FetchOver(stores, parts, i + 1)
        case Payload(rest) => Payload(s[name][PART_KEY].bytes + rest)
        case Rejected => Rejected
      else Rejected
  }

  function Checked(index: BundleIndex, r: ReadResult, digest: seq<byte> -> Digest): ReadResult {
    if r.Payload? && Hex(digest(r.bytes)) != ToLower(index.checksum) then Rejected else r
  }

  /** The reader: parse the index, fetch the listed parts, compare checksums. The index comes
      from `t` and the i-th part from `stores(i)`, for these are separate calls. */
  function ReadOver(t: Store, stores: nat -> Store, gw: Gateway, digest: seq<byte> -> Digest): ReadResult
    requires ValidGateway(gw)
  {
    var name := IndexName(gw);
    if name in t && INDEX_KEY in t[name] && t[name][INDEX_KEY].IndexDoc? then
      var index := t[name][INDEX_KEY].index;
      if index.checksum == "" || index.parts == [] then Rejected
      else Checked(index, FetchOver(stores, index.parts, 0), digest)
    else Rejected
  }

  /** A reader that meets no write in between. */
  function Read(s: Store, gw: Gateway, digest: seq<byte> -> Digest): ReadResult
    requires ValidGateway(gw)
  {
    var name := IndexName(gw);
    if name in s && INDEX_KEY in s[name] && s[name][INDEX_KEY].IndexDoc? then
      var index := s[name][INDEX_KEY].index;
      if index.checksum == "" || index.parts == [] then Rejected else Checked(index, Fetch(s, index.parts), digest)
    else Rejected
  }

  lemma {:induction false} FetchInOne(s: Store, stores: nat -> Store, parts: seq<Part>, i: nat)
    requires i <= |parts| && forall k: nat :: stores(k) == s
    ensures FetchOver(stores, parts, i) == Fetch(s, parts[i..])
    decreases |parts| - i
  {
    if i < |parts| {
      FetchInOne(s, stores, parts, i + 1);
      assert parts[i..][0] == parts[i] && parts[i..][1..] == parts[i + 1..];
    }
  }

  lemma ReadInOne(s: Store, stores: nat -> Store, gw: Gateway, digest: seq<byte> -> Digest)
    requires ValidGateway(gw) && forall k: nat :: stores(k) == s
    ensures ReadOver(s, stores, gw, digest) == Read(s, gw, digest)
  {
    var name := IndexName(gw);
    if name in s && INDEX_KEY in s[name] && s[name][INDEX_KEY].IndexDoc? {
      var parts := s[name][INDEX_KEY].index.parts;
      FetchInOne(s, stores, parts, 0);
      assert parts[0..] == parts;
    }
  }

  /** ReassembleBundleConfig; what the i-th call of readPart sees is `stores(i)`. */
  method ReassembleBundle(index: BundleIndex, stores: nat -> Store, digest: seq<byte> -> Digest) returns (r: ReadResult)
    ensures r == Checked(index, FetchOver(stores, index.parts, 0), digest)
  {
    var payload := [];
    var i := 0;
    while i < |index.parts|
      invariant 0 <= i <= |index.parts|
      invariant FetchOver(stores, index.parts, 0) == match FetchOver(stores, index.parts, i)
                                                     case Rejected => Rejected
                                                     case Payload(rest) => Payload(payload + rest)
    {
      var s: Store := stores(i);
      var name := index.parts[i].name;
      if name !in s || PART_KEY !in s[name] || !s[name][PART_KEY].Chunk? {
        return Rejected;
      }
      ghost var before := payload;
      payload := payload + s[name][PART_KEY].bytes;
      assert forall rest: seq<byte> :: before + (s[name][PART_KEY].bytes + rest) == payload + rest;
      i := i + 1;
    }
    assert payload + [] == payload;
    if Hex(digest(payload)) != ToLower(index.checksum) {
      return Rejected;
    }
    return Payload(payload);
  }

  /** Fetching a list of parts whose contents are known concatenates them. */
  lemma {:induction false} FetchConcat(s: Store, parts: seq<Part>, contents: seq<seq<byte>>)
    requires |parts| == |contents|
    requires forall i :: 0 <= i < |parts| ==>
      parts[i].name in s && PART_KEY in s[parts[i].name] && s[parts[i].name][PART_KEY] == Chunk(contents[i])
    ensures Fetch(s, parts) == Payload(Concat(contents))
  {
    if parts != [] {
      FetchConcat(s, parts[1..], contents[1..]);
    }
  }

  lemma {:induction false} FetchMissing(s: Store, parts: seq<Part>, i: nat)
    requires i < |parts| && parts[i].name !in s
    ensures Fetch(s, parts) == Rejected
  {
    if i > 0 {
      FetchMissing(s, parts[1..], i - 1);
    }
  }

  // ------------------------------------------------------------------- theorems

  /** A completed write is what the next reader gets, from any store whatever;
      exactly the listed slots exist afterwards. */
  lemma CompletedWriteReads(s: Store, w: Write, digest: seq<byte> -> Digest)
    requires Fits(w)
    ensures var t := After(s, w, digest, SLOTS + 1);
            && Read(t, w.gw, digest) == Payload(w.payload)
            && (forall i: nat :: i < SLOTS ==> (PartName(w.gw, i) in t <==> i < |Chunks(w.payload, PART_SIZE)|))
  {
    var t, cs := After(s, w, digest, SLOTS + 1), Chunks(w.payload, PART_SIZE);
    AfterContents(s, w, digest, SLOTS + 1, IndexName(w.gw));
    forall i: nat | i < SLOTS
      ensures if i < |cs| then PartName(w.gw, i) in t && t[PartName(w.gw, i)] == map[PART_KEY := Chunk(cs[i])]
              else PartName(w.gw, i) !in t
    {
      AfterContents(s, w, digest, SLOTS + 1, PartName(w.gw, i));
    }
    ChunksRejoin(w.payload, PART_SIZE);
    FetchConcat(t, PartsOf(w.gw, cs), cs);
    HexIsLower(digest(w.payload));
    assert |Hex(digest(w.payload))| > 0;
  }

  /** One attempt of a run: it got through `steps` of its writes and then failed,
      crashed, or (at SLOTS + 1) finished. */
  datatype Attempt = Attempt(w: Write, steps: nat)

  predicate ValidAttempt(a: Attempt) {
    a.steps <= SLOTS + 1 && ValidGateway(a.w.gw) && (a.steps > 0 ==> Fits(a.w))
  }

  predicate ValidRun(run: seq<Attempt>) {
    forall i :: 0 <= i < |run| ==> ValidAttempt(run[i])
  }

  /** Distinct gateways have distinct name hashes. */
  predicate Separate(run: seq<Attempt>, gw: Gateway) {
    forall i :: 0 <= i < |run| ==> run[i].w.gw == gw || run[i].w.gw.hash != gw.hash
  }

  function Run(s: Store, run: seq<Attempt>, digest: seq<byte> -> Digest): Store
    requires ValidRun(run)
  {
    if run == [] then s
    else
      var last := run[|run| - 1];
      var t := Run(s, run[..|run| - 1], digest);
      if last.steps == 0 then t else After(t, last.w, digest, last.steps)
  }

  /** The payload of the last attempt of this gateway that reached its index write. */
  function LastIndexed(run: seq<Attempt>, gw: Gateway): seq<Write> {
    if run == [] then []
    else
      var last := run[|run| - 1];
      if last.w.gw == gw && last.steps == SLOTS + 1 then [last.w] else LastIndexed(run[..|run| - 1], gw)
  }

  lemma {:induction false} RunIndex(s: Store, run: seq<Attempt>, digest: seq<byte> -> Digest, gw: Gateway)
    requires ValidRun(run) && Separate(run, gw)
    requires ValidGateway(gw) && IndexName(gw) !in s
    ensures var t, done, name := Run(s, run, digest), LastIndexed(run, gw), IndexName(gw);
            && (done == [] ==> name !in t)
            && (done != [] ==> Fits(done[0]) && name in t && INDEX_KEY in t[name]
                               && t[name][INDEX_KEY] == IndexDoc(Index(done[0], digest)))
  {
    if run != [] {
      var last, rest := run[|run| - 1], run[..|run| - 1];
      RunIndex(s, rest, digest, gw);
      if last.steps > 0 {
        forall i: nat | i < SLOTS ensures IndexName(gw) != PartName(last.w.gw, i) {
          NamesDisjoint(gw, last.w.gw, i, i);
        }
        NamesDisjoint(gw, last.w.gw, 0, 0);
        AfterContents(Run(s, rest, digest), last.w, digest, last.steps, IndexName(gw));
      }
    }
  }

  /** A point of a run: after some attempts and some writes of the next one. */
  datatype Moment = Moment(attempts: nat, steps: nat)

  predicate During(run: seq<Attempt>, m: Moment) {
    m.attempts <= |run| && if m.attempts == |run| then m.steps == 0 else m.steps <= run[m.attempts].steps
  }

  predicate NotBefore(m: Moment, at: Moment) {
    m.attempts > at.attempts || (m.attempts == at.attempts && m.steps >= at.steps)
  }

  /** The run up to that point. */
  function Until(run: seq<Attempt>, m: Moment): (r: seq<Attempt>)
    requires During(run, m)
    ensures ValidRun(run) ==> ValidRun(r)
  {
    run[..m.attempts] + if m.attempts == |run| then [] else [run[m.attempts].(steps := m.steps)]
  }

  function StoreAt(s: Store, run: seq<Attempt>, digest: seq<byte> -> Digest, m: Moment): Store {
    if During(run, m) && ValidRun(run) then Run(s, Until(run, m), digest) else s
  }

  /** The stores at several points. */
  function StoresAt(s: Store, run: seq<Attempt>, digest: seq<byte> -> Digest, moments: nat -> Moment): nat -> Store {
    (i: nat) => StoreAt(s, run, digest, moments(i))
  }

  /** What a reader gets that reads the index at `at` and the i-th part at `moments(i)`. */
  function ReadDuring(s: Store, run: seq<Attempt>, digest: seq<byte> -> Digest, gw: Gateway, at: Moment,
                      moments: nat -> Moment): ReadResult
    requires ValidGateway(gw)
  {
    ReadOver(StoreAt(s, run, digest, at), StoresAt(s, run, digest, moments), gw, digest)
  }

  /** Behind the index of a write a reader gets that write's payload, or is rejected, or holds
      a checksum collision in its hands, wherever it takes the parts from. */
  lemma IndexDecides(t: Store, stores: nat -> Store, w: Write, digest: seq<byte> -> Digest)
    requires Fits(w) && IndexName(w.gw) in t && INDEX_KEY in t[IndexName(w.gw)]
    requires t[IndexName(w.gw)][INDEX_KEY] == IndexDoc(Index(w, digest))
    ensures var r := ReadOver(t, stores, w.gw, digest);
            r.Payload? ==> r.bytes == w.payload || (r.bytes != w.payload && digest(r.bytes) == digest(w.payload))
  {
    var r := ReadOver(t, stores, w.gw, digest);
    if r.Payload? {
      HexIsLower(digest(w.payload));
      HexInjective(digest(r.bytes), digest(w.payload));
    }
  }

  /** Over every run of attempts by any gateways, each cut off after any of its writes, and
      with writes falling between the reads: a reader that gets the index at one point and
      each part at any later one is turned away or gets exactly the payload of the last write
      of its gateway indexed when it read the index, unless it holds a checksum collision. */
  lemma ReaderNeverSplices(s: Store, run: seq<Attempt>, digest: seq<byte> -> Digest, gw: Gateway, at: Moment,
                           moments: nat -> Moment)
    requires ValidRun(run) && Separate(run, gw) && During(run, at)
    requires forall i: nat :: During(run, moments(i)) && NotBefore(moments(i), at)
    requires ValidGateway(gw) && IndexName(gw) !in s
    ensures var done, r := LastIndexed(Until(run, at), gw), ReadDuring(s, run, digest, gw, at, moments);
            r.Payload? ==>
              && done != []
              && (r.bytes != done[0].payload ==> digest(r.bytes) == digest(done[0].payload))
  {
    var upto := Until(run, at);
    RunIndex(s, upto, digest, gw);
    LastIndexedIsOurs(upto, gw);
    var done := LastIndexed(upto, gw);
    if done != [] {
      IndexDecides(StoreAt(s, run, digest, at), StoresAt(s, run, digest, moments), done[0], digest);
    }
  }

  lemma {:induction false} LastIndexedIsOurs(run: seq<Attempt>, gw: Gateway)
    ensures LastIndexed(run, gw) != [] ==> LastIndexed(run, gw)[0].gw == gw
  {
    if run != [] {
      LastIndexedIsOurs(run[..|run| - 1], gw);
    }
  }

  /** With a collision-free checksum: turned away, or the last indexed payload and never a
      splice; and a reader that meets no further write gets what was completed last. */
  lemma ReaderIsExact(s: Store, run: seq<Attempt>, digest: seq<byte> -> Digest, gw: Gateway, at: Moment,
                      moments: nat -> Moment)
    requires forall p, q :: digest(p) == digest(q) ==> p == q
    requires ValidRun(run) && Separate(run, gw) && During(run, at)
    requires forall i: nat :: During(run, moments(i)) && NotBefore(moments(i), at)
    requires ValidGateway(gw) && IndexName(gw) !in s
    ensures var done, r := LastIndexed(Until(run, at), gw), ReadDuring(s, run, digest, gw, at, moments);
            && (r.Payload? ==> done != [] && r.bytes == done[0].payload)
            && (run != [] && at.attempts == |run| && run[|run| - 1].w.gw == gw && run[|run| - 1].steps == SLOTS + 1 ==>
                  r == Payload(run[|run| - 1].w.payload))
  {
    ReaderNeverSplices(s, run, digest, gw, at, moments);
    if run != [] && at.attempts == |run| && run[|run| - 1].w.gw == gw && run[|run| - 1].steps == SLOTS + 1 {
      assert forall i: nat :: moments(i) == at;
      assert Until(run, at) == run;
      ReadInOne(Run(s, run, digest), StoresAt(s, run, digest, moments), gw, digest);
      CompletedWriteReads(Run(s, run[..|run| - 1], digest), run[|run| - 1].w, digest);
    }
  }

  /** Equal concatenations of equally cut lists are equal lists. */
  lemma {:induction false} SameCuts(c: seq<seq<byte>>, q: seq<seq<byte>>)
    requires |c| == |q| && Concat(c) == Concat(q)
    requires forall i :: 0 <= i < |q| - 1 ==> |c[i]| == |q[i]|
    ensures c == q
  {
    if c != [] {
      if |c| == 1 {
        assert c[1..] == [] && q[1..] == [];
        assert c[0] == Concat(c) && q[0] == Concat(q);
      } else {
        assert Concat(c)[..|c[0]|] == c[0] && Concat(q)[..|q[0]|] == q[0];
        assert Concat(c)[|c[0]|..] == Concat(c[1..]) && Concat(q)[|q[0]|..] == Concat(q[1..]);
        SameCuts(c[1..], q[1..]);
      }
      assert c == [c[0]] + c[1..] && q == [q[0]] + q[1..];
    }
  }

  lemma {:induction false} ShorterCuts(c: seq<seq<byte>>, q: seq<seq<byte>>)
    requires |c| == |q| && forall i :: 0 <= i < |q| ==> |c[i]| <= |q[i]|
    ensures |Concat(c)| <= |Concat(q)|
    ensures |Concat(c)| == |Concat(q)| ==> forall i :: 0 <= i < |q| ==> |c[i]| == |q[i]|
  {
    if c != [] {
      ShorterCuts(c[1..], q[1..]);
      assert forall i :: 1 <= i < |q| ==> c[i] == c[1..][i - 1] && q[i] == q[1..][i - 1];
    }
  }

  /** The chunks of `q` after the first `k` slots were overwritten by those of `p`. */
  function Overlay(p: seq<seq<byte>>, q: seq<seq<byte>>, k: nat): seq<seq<byte>>
    requires k <= |p| || |q| <= |p|
  {
    seq(|q|, i requires 0 <= i < |q| => if i < k then p[i] else q[i])
  }

  /** No slot used by `q` is missing, or different, after `k` slots of `p`. */
  predicate Untouched(p: seq<seq<byte>>, q: seq<seq<byte>>, k: nat) {
    forall i :: 0 <= i < |q| && i < k ==> i < |p| && p[i] == q[i]
  }

  /** A partly overwritten list concatenates to the old payload only if nothing changed. */
  lemma OverlayReadsBack(p: seq<seq<byte>>, q: seq<seq<byte>>, k: nat, size: nat)
    requires WellCut(p, size) && WellCut(q, size)
    requires k <= |p| || |q| <= |p|
    ensures Concat(Overlay(p, q, k)) == Concat(q) <==> Untouched(p, q, k)
  {
    var c := Overlay(p, q, k);
    assert Untouched(p, q, k) ==> c == q;
    if Concat(c) == Concat(q) {
      if k < |q| {
        ShorterCuts(c, q);
      }
      SameCuts(c, q);
      assert forall i :: 0 <= i < |q| && i < k ==> p[i] == c[i];
    }
  }

  /** Mid-write, the previous bundle stays readable exactly as long as no slot it
      uses has been given different content or deleted. */
  lemma MidWriteReadable(s: Store, prev: Write, w: Write, digest: seq<byte> -> Digest, k: nat)
    requires Fits(prev) && Fits(w) && prev.gw == w.gw && k <= SLOTS
    requires forall p, q :: digest(p) == digest(q) ==> p == q
    ensures Read(After(After(s, prev, digest, SLOTS + 1), w, digest, k), w.gw, digest) ==
            if Untouched(Chunks(w.payload, PART_SIZE), Chunks(prev.payload, PART_SIZE), k)
            then Payload(prev.payload) else Rejected
  {
    var t := After(After(s, prev, digest, SLOTS + 1), w, digest, k);
    var q, p := Chunks(prev.payload, PART_SIZE), Chunks(w.payload, PART_SIZE);
    MidWriteParts(s, prev, w, digest, k);
    MidWriteFetch(t, w.gw, p, q, k);
    ReadAgainst(t, prev, digest);
    ChunksRejoin(prev.payload, PART_SIZE);
    ChunksRejoin(w.payload, PART_SIZE);
    if k <= |p| || |q| <= |p| {
      OverlayReadsBack(p, q, k, PART_SIZE);
    } else {
      assert !Untouched(p, q, k) by {
        assert q[|p|] == q[|p|];
      }
    }
  }

  /** Behind the index of a write, a reader gets that write's payload or nothing. */
  lemma ReadAgainst(t: Store, w: Write, digest: seq<byte> -> Digest)
    requires Fits(w) && IndexName(w.gw) in t && INDEX_KEY in t[IndexName(w.gw)]
    requires t[IndexName(w.gw)][INDEX_KEY] == IndexDoc(Index(w, digest))
    requires forall p, q :: digest(p) == digest(q) ==> p == q
    ensures Read(t, w.gw, digest) ==
            var r := Fetch(t, PartsOf(w.gw, Chunks(w.payload, PART_SIZE)));
            if r == Payload(w.payload) then r else Rejected
  {
    HexIsLower(digest(w.payload));
    assert |Hex(digest(w.payload))| > 0;
    var r := Fetch(t, PartsOf(w.gw, Chunks(w.payload, PART_SIZE)));
    if r.Payload? && Hex(digest(r.bytes)) == Hex(digest(w.payload)) {
      HexInjective(digest(r.bytes), digest(w.payload));
    }
  }

  ghost predicate PartsMidWrite(t: Store, gw: Gateway, p: seq<seq<byte>>, q: seq<seq<byte>>, k: nat)
    requires ValidGateway(gw) && |q| <= SLOTS
  {
    forall i: nat :: i < |q| ==>
      var name := PartName(gw, i);
      if i < k && i >= |p| then name !in t
      else name in t && t[name] == map[PART_KEY := Chunk(if i < k then p[i] else q[i])]
  }

  lemma MidWriteFetch(t: Store, gw: Gateway, p: seq<seq<byte>>, q: seq<seq<byte>>, k: nat)
    requires ValidGateway(gw) && |q| <= SLOTS && PartsMidWrite(t, gw, p, q, k)
    ensures Fetch(t, PartsOf(gw, q)) ==
            if k <= |p| || |q| <= |p| then Payload(Concat(Overlay(p, q, k))) else Rejected
  {
    if k <= |p| || |q| <= |p| {
      FetchConcat(t, PartsOf(gw, q), Overlay(p, q, k));
    } else {
      FetchMissing(t, PartsOf(gw, q), |p|);
    }
  }

  lemma MidWriteParts(s: Store, prev: Write, w: Write, digest: seq<byte> -> Digest, k: nat)
    requires Fits(prev) && Fits(w) && prev.gw == w.gw && k <= SLOTS
    ensures var t := After(After(s, prev, digest, SLOTS + 1), w, digest, k);
            && IndexName(w.gw) in t && INDEX_KEY in t[IndexName(w.gw)]
            && t[IndexName(w.gw)][INDEX_KEY] == IndexDoc(Index(prev, digest))
            && PartsMidWrite(t, w.gw, Chunks(w.payload, PART_SIZE), Chunks(prev.payload, PART_SIZE), k)
  {
    var done := After(s, prev, digest, SLOTS + 1);
    OwnNamesDistinct(w.gw);
    AfterContents(s, prev, digest, SLOTS + 1, IndexName(w.gw));
    AfterContents(done, w, digest, k, IndexName(w.gw));
    var t, p, q := After(done, w, digest, k), Chunks(w.payload, PART_SIZE), Chunks(prev.payload, PART_SIZE);
    forall i: nat | i < |q|
      ensures var name := PartName(w.gw, i);
              if i < k && i >= |p| then name !in t
              else name in t && t[name] == map[PART_KEY := Chunk(if i < k then p[i] else q[i])]
    {
      AfterContents(s, prev, digest, SLOTS + 1, PartName(w.gw, i));
      AfterContents(done, w, digest, k, PartName(w.gw, i));
    }
  }

  // ------------------------------------------------------------------ the writer

  /** What the API server does with a call: serve it, refuse it (or the process
      dies first), or apply it and lose the reply. */
  datatype Reply = Served | Refused | Lost
  datatype Lookup = Found(secret: Secret) | NotFound | Failed

  function PartsUpTo(gw: Gateway, chunks: seq<seq<byte>>, i: nat): seq<Part>
    requires ValidGateway(gw) && |chunks| <= SLOTS
  {
    PartsOf(gw, chunks)[..if i < |chunks| then i else |chunks|]
  }

  lemma PartsNext(gw: Gateway, chunks: seq<seq<byte>>, i: nat)
    requires ValidGateway(gw) && |chunks| <= SLOTS
    ensures PartsUpTo(gw, chunks, i + 1) ==
            PartsUpTo(gw, chunks, i) + if i < |chunks| then [Part(PartName(gw, i), PartPath(i), |chunks[i]|)] else []
    ensures i >= |chunks| ==> PartsUpTo(gw, chunks, i) == PartsOf(gw, chunks)
  {}

  /** The Secrets API of one namespace with a script of replies; once the script
      is used up every call is served. */
  class SecretApi {
    var secrets: Store
    var script: seq<Reply>

    constructor (s: Store, replies: seq<Reply>)
      ensures secrets == s && script == replies
    {
      secrets, script := s, replies;
    }

    ghost predicate Healthy()
      reads this
    {
      forall i :: 0 <= i < |script| ==> script[i] == Served
    }

    method Next() returns (r: Reply)
      modifies this
      ensures secrets == old(secrets)
      ensures old(Healthy()) ==> r == Served && Healthy()
    {
      if script == [] {
        r := Served;
      } else {
        r := script[0];
        script := script[1..];
      }
    }

    method Get(name: string) returns (r: Lookup)
      modifies this
      ensures secrets == old(secrets)
      ensures r.Found? ==> name in secrets && r.secret == secrets[name]
      ensures r.NotFound? ==> name !in secrets
      ensures old(Healthy()) ==> !r.Failed? && Healthy()
    {
      var reply := Next();
      if reply != Served {
        r := Failed;
      } else if name in secrets {
        r := Found(secrets[name]);
      } else {
        r := NotFound;
      }
    }

    /** Create, which fails on an existing name, or Update, which fails on a missing one. */
    method Put(name: string, data: Secret, create: bool) returns (ok: bool, ghost applied: bool)
      requires create <==> name !in secrets
      modifies this
      ensures ok ==> applied
      ensures secrets == if applied then old(secrets)[name := data] else old(secrets)
      ensures old(Healthy()) ==> ok && Healthy()
    {
      var reply := Next();
      applied := reply != Refused;
      ok := reply == Served;
      if reply != Refused {
        secrets := secrets[name := data];
      }
    }

    /** Delete, where a missing name counts as done. */
    method Delete(name: string) returns (ok: bool, ghost applied: bool)
      modifies this
      ensures ok ==> applied
      ensures secrets == if applied then old(secrets) - {name} else old(secrets)
      ensures old(Healthy()) ==> ok && Healthy()
    {
      var reply := Next();
      applied := reply != Refused;
      ok := reply == Served;
      if reply != Refused {
        secrets := secrets - {name};
      }
    }

    /** The writer: whatever the API does, the store it leaves is `After` some number
        of its steps, all of them when it reports success; an oversized payload is
        refused before anything is written. */
    method WriteFilterConfigBundle(w: Write, digest: seq<byte> -> Digest) returns (ok: bool, ghost steps: nat)
      requires ValidGateway(w.gw)
      modifies this
      ensures !Fits(w) ==> !ok && secrets == old(secrets) && script == old(script) && steps == 0
      ensures Fits(w) <==> |w.payload| <= SLOTS * PART_SIZE
      ensures Fits(w) ==> steps <= SLOTS + 1 && secrets == After(old(secrets), w, digest, steps)
      ensures ok ==> steps == SLOTS + 1
      ensures ok ==> Fits(w) && Read(secrets, w.gw, digest) == Payload(w.payload)
      ensures ok ==> DistinctPaths(PartsOf(w.gw, Chunks(w.payload, PART_SIZE)))
      ensures Fits(w) && old(Healthy()) ==> ok
    {
      steps := 0;
      var chunks := SplitBytes(w.payload, PART_SIZE);
      ChunkCount(w.payload, PART_SIZE, SLOTS);
      if |chunks| > SLOTS {
        return false, 0;
      }
      var parts, done;
      done, steps, parts := WriteSlots(w, chunks, digest);
      if !done {
        return false, steps;
      }
      ghost var applied;
      done, applied := WriteIndex(w, parts, digest);
      steps := if applied then SLOTS + 1 else SLOTS;
      CompletedWriteReads(old(secrets), w, digest);
      PartsHavePaths(w.gw, chunks);
      return done, steps;
    }

    /** The loop over the slots, which also lists the parts written. */
    method WriteSlots(w: Write, chunks: seq<seq<byte>>, ghost digest: seq<byte> -> Digest)
      returns (ok: bool, ghost steps: nat, parts: seq<Part>)
      requires Fits(w) && chunks == Chunks(w.payload, PART_SIZE)
      modifies this
      ensures steps <= SLOTS && secrets == After(old(secrets), w, digest, steps)
      ensures ok ==> steps == SLOTS && parts == PartsOf(w.gw, chunks)
      ensures old(Healthy()) ==> ok && Healthy()
    {
      steps, parts := 0, [];
      var i := 0;
      while i < SLOTS
        invariant 0 <= i <= SLOTS && steps == i
        invariant secrets == After(old(secrets), w, digest, i)
        invariant parts == PartsUpTo(w.gw, chunks, i)
        invariant old(Healthy()) ==> Healthy()
      {
        PartsNext(w.gw, chunks, i);
        if i < |chunks| {
          parts := parts + [Part(PartName(w.gw, i), PartPath(i), |chunks[i]|)];
        }
        var done, applied := WriteSlot(w.gw, chunks, i);
        steps := if applied then i + 1 else i;
        if !done {
          return false, steps, parts;
        }
        i := i + 1;
      }
      PartsNext(w.gw, chunks, SLOTS);
      ok := true;
    }

    method WriteSlot(gw: Gateway, chunks: seq<seq<byte>>, i: nat) returns (ok: bool, ghost applied: bool)
      requires ValidGateway(gw) && i < SLOTS
      modifies this
      ensures ok ==> applied
      ensures secrets == if applied then SlotWritten(old(secrets), gw, chunks, i) else old(secrets)
      ensures old(Healthy()) ==> ok && Healthy()
    {
      var partName := PartName(gw, i);
      if i >= |chunks| {
        ok, applied := Delete(partName);
      } else {
        var found := Get(partName);
        if found.Failed? {
          return false, false;
        }
        ok, applied := Put(partName, map[PART_KEY := Chunk(chunks[i])], found.NotFound?);
      }
    }

    method WriteIndex(w: Write, parts: seq<Part>, digest: seq<byte> -> Digest) returns (ok: bool, ghost applied: bool)
      requires Fits(w) && parts == PartsOf(w.gw, Chunks(w.payload, PART_SIZE))
      modifies this
      ensures ok ==> applied
      ensures secrets == if applied then IndexWritten(old(secrets), w, digest) else old(secrets)
      ensures old(Healthy()) ==> ok && Healthy()
    {
      var name := IndexName(w.gw);
      var found := Get(name);
      if found.Failed? {
        return false, false;
      }
      var data := if found.Found? then found.secret else map[];
      var doc := IndexDoc(BundleIndex(w.uuid, Hex(digest(w.payload)), parts));
      ok, applied := Put(name, data[INDEX_KEY := doc], found.NotFound?);
    }
  }
}
