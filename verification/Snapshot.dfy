/** State snapshots of app/snapshot.go: the state cut into chunks kept in a content-addressed store,
    and put together again by hash. */
module Snapshot {
  import opened Arithmetic
  import opened Wrappers

  type Byte = n: nat | n < 256

  type Bytes = seq<Byte>

  /** `hash` is the SHA-256 of the other fields, as calculateSnapshotHash lays them out. */
  datatype Info = Info(height: nat, format: nat, chunkCount: nat, hash: Bytes, chunkHashes: seq<string>)

  const FORMAT_VERSION: nat := 1

  /** The bytes of all chunks in order. */
  function Concat(chunks: seq<Bytes>): Bytes {
    if chunks == [] then [] else Concat(chunks[..|chunks| - 1]) + chunks[|chunks| - 1]
  }

  /** Every chunk but the last is full, and the last is not empty. */
  ghost predicate WellCut(chunks: seq<Bytes>, size: nat) {
    && (forall i :: 0 <= i < |chunks| - 1 ==> |chunks[i]| == size)
    && (chunks != [] ==> 0 < |chunks[|chunks| - 1]| <= size)
  }

  function Hashes(sha: Bytes -> string, chunks: seq<Bytes>): (hs: seq<string>)
    ensures |hs| == |chunks|
  {
    seq(|chunks|, i requires 0 <= i < |chunks| => sha(chunks[i]))
  }

  lemma {:induction false} FullChunksLength(chunks: seq<Bytes>, size: nat)
    requires forall i :: 0 <= i < |chunks| ==> |chunks[i]| == size
    ensures |Concat(chunks)| == |chunks| * size
  {
    if chunks != [] {
      var n := |chunks|;
      FullChunksLength(chunks[..n - 1], size);
      assert (n - 1) * size + size == n * size;
    }
  }

  lemma WellCutTotal(chunks: seq<Bytes>, size: nat)
    requires WellCut(chunks, size) && chunks != []
    ensures |Concat(chunks)| == (|chunks| - 1) * size + |chunks[|chunks| - 1]|
  {
    FullChunksLength(chunks[..|chunks| - 1], size);
  }

  /** A well-cut sequence has ceil(length / size) chunks. */
  lemma WellCutLength(chunks: seq<Bytes>, size: nat)
    requires size > 0 && WellCut(chunks, size)
    ensures |chunks| == (|Concat(chunks)| + size - 1) / size
  {
    if chunks != [] {
      WellCutTotal(chunks, size);
      CeilQuotient((|chunks| - 1) * size, |chunks[|chunks| - 1]|, size, |chunks|);
    } else {
      assert (size - 1) / size == 0;
    }
  }

  lemma CeilQuotient(full: nat, last: nat, size: nat, n: nat)
    requires n > 0 && full == (n - 1) * size && 0 < last <= size
    ensures (full + last + size - 1) / size == n
  {
    var x := full + last + size - 1;
    assert x == size * n + (last - 1) by {
      assert size * n == size * (n - 1) + size;
    }
    UniqueQuotient(x, size, n, last - 1);
  }

  class Manager {
    const sha: Bytes -> string
    const digest: Bytes -> Bytes
    const chunkSize: nat
    var snapshots: map<nat, Info>
    var chunks: map<string, Bytes>

    constructor (sha: Bytes -> string, digest: Bytes -> Bytes, chunkSize: nat)
      requires chunkSize > 0
      ensures this.sha == sha && this.digest == digest && this.chunkSize == chunkSize && Valid()
      ensures snapshots == map[] && chunks == map[]
    {
      this.sha, this.digest, this.chunkSize := sha, digest, chunkSize;
      snapshots, chunks := map[], map[];
    }

    /** Every stored chunk sits under its own hash. */
    ghost predicate Valid()
      reads this
    {
      chunkSize > 0 && Addressed(sha, chunks)
    }

    method SplitIntoChunks(data: Bytes) returns (parts: seq<Bytes>, hashes: seq<string>)
      requires chunkSize > 0
      ensures Concat(parts) == data
      ensures WellCut(parts, chunkSize)
      ensures |parts| == (|data| + chunkSize - 1) / chunkSize
      ensures hashes == Hashes(sha, parts)
    {
      parts, hashes := [], [];
      var i := 0;
      while i < |data|
        invariant 0 <= i
        invariant Concat(parts) == data[..if i <= |data| then i else |data|]
        invariant i <= |data| ==> forall k :: 0 <= k < |parts| ==> |parts[k]| == chunkSize
        invariant WellCut(parts, chunkSize)
        invariant hashes == Hashes(sha, parts)
        decreases |data| - i
      {
        var end := i + chunkSize;
        if end > |data| {
          end := |data|;
        }
        var chunk := data[i..end];
        assert data[..i] + chunk == data[..end];
        assert (parts + [chunk])[..|parts|] == parts;
        parts := parts + [chunk];
        hashes := hashes + [sha(chunk)];
        i := i + chunkSize;
      }
      assert data[..|data|] == data;
      WellCutLength(parts, chunkSize);
    }

    /** CreateSnapshot with the exported state as an argument. */
    method CreateSnapshot(height: nat, state: Bytes) returns (info: Info, ghost parts: seq<Bytes>)
      requires Valid()
      modifies this
      ensures Valid()
      ensures height in snapshots && info == snapshots[height]
      ensures height in old(snapshots) ==> snapshots == old(snapshots) && chunks == old(chunks)
      ensures height !in old(snapshots) ==>
        && Concat(parts) == state && WellCut(parts, chunkSize)
        && info == Described(digest, height, |parts|, Hashes(sha, parts))
        && snapshots == old(snapshots)[height := info]
        && chunks == StoreAll(sha, old(chunks), parts)
    {
      if height in snapshots {
        parts := [];
        return snapshots[height], parts;
      }
      var pieces, hashes := SplitIntoChunks(state);
      parts := pieces;
      for i := 0 to |hashes|
        invariant chunks == StoreAll(sha, old(chunks), pieces[..i])
        invariant snapshots == old(snapshots)
      {
        assert pieces[..i + 1][..i] == pieces[..i];
        chunks := chunks[hashes[i] := pieces[i]];
      }
      assert pieces[..|pieces|] == pieces;
      StoreAllAddressed(sha, old(chunks), pieces);
      info := Info(height, FORMAT_VERSION, |pieces| % 0x1_0000_0000, [], hashes);
      info := info.(hash := digest(Metadata(info.height, info.format, info.chunkCount, hashes)));
      snapshots := snapshots[height := info];
    }

    method ApplyChunk(chunk: Bytes, chunkHash: string) returns (ok: bool)
      requires Valid()
      modifies this
      ensures Valid() && snapshots == old(snapshots)
      ensures ok == (sha(chunk) == chunkHash)
      ensures chunks == if ok then old(chunks)[chunkHash := chunk] else old(chunks)
    {
      if sha(chunk) != chunkHash {
        return false;
      }
      chunks := chunks[chunkHash := chunk];
      return true;
    }

    /** CompleteSnapshot and importState: all chunks present, then their bytes in order. */
    method CompleteSnapshot(info: Info) returns (data: Option<Bytes>)
      ensures data == Rebuild(chunks, info.chunkHashes)
    {
      for i := 0 to |info.chunkHashes|
        invariant forall j :: 0 <= j < i ==> info.chunkHashes[j] in chunks
      {
        if info.chunkHashes[i] !in chunks {
          return None;
        }
      }
      var bytes: Bytes := [];
      for i := 0 to |info.chunkHashes|
        invariant bytes == Fetch(chunks, info.chunkHashes[..i])
      {
        assert info.chunkHashes[..i + 1][..i] == info.chunkHashes[..i];
        bytes := bytes + chunks[info.chunkHashes[i]];
      }
      assert info.chunkHashes[..|info.chunkHashes|] == info.chunkHashes;
      return Some(bytes);
    }
  }

  // ---------- The snapshot's own hash ----------

  /** The last bytes of n, most significant first. */
  function BigEndian(n: nat, width: nat): (bytes: Bytes)
    ensures |bytes| == width
  {
    if width == 0 then [] else BigEndian(n / 256, width - 1) + [n % 256]
  }

  /** 32 bytes of a chunk hash are copied. The hash is 64 hexadecimal characters. */
  function Head(hash: string): (bytes: Bytes)
    ensures |bytes| == 32
  {
    seq(32, i => if 0 <= i < |hash| then hash[i] as int % 256 else 0)
  }

  function Heads(hashes: seq<string>): (bytes: Bytes)
    ensures |bytes| == 32 * |hashes|
  {
    if hashes == [] then [] else Heads(hashes[..|hashes| - 1]) + Head(hashes[|hashes| - 1])
  }

  function Metadata(height: nat, format: nat, count: nat, hashes: seq<string>): Bytes {
    BigEndian(height, 8) + BigEndian(format, 4) + BigEndian(count, 4) + Heads(hashes)
  }

  function Described(digest: Bytes -> Bytes, height: nat, count: nat, hashes: seq<string>): Info {
    var c := count % 0x1_0000_0000;
    Info(height, FORMAT_VERSION, c, digest(Metadata(height, FORMAT_VERSION, c, hashes)), hashes)
  }

  function Pow256(k: nat): nat {
    if k == 0 then 1 else 256 * Pow256(k - 1)
  }

  lemma {:induction false} BigEndianExactly(a: nat, b: nat, width: nat)
    requires a < Pow256(width) && b < Pow256(width)
    ensures BigEndian(a, width) == BigEndian(b, width) <==> a == b
  {
    if width > 0 {
      BigEndianExactly(a / 256, b / 256, width - 1);
      if BigEndian(a, width) == BigEndian(b, width) {
        LastEqual(BigEndian(a / 256, width - 1), a % 256, BigEndian(b / 256, width - 1), b % 256);
      }
    }
  }

  lemma LastEqual(x: Bytes, c: Byte, y: Bytes, d: Byte)
    requires x + [c] == y + [d]
    ensures x == y && c == d
  {
    assert |x| == |y| && (x + [c])[..|x|] == x && (y + [d])[..|y|] == y;
    assert (x + [c])[|x|] == c && (y + [d])[|y|] == d;
  }

  lemma {:induction false} HeadsExactly(xs: seq<string>, ys: seq<string>)
    ensures Heads(xs) == Heads(ys) <==> |xs| == |ys| && forall i :: 0 <= i < |xs| ==> Head(xs[i]) == Head(ys[i])
  {
    if |xs| == |ys| && xs != [] {
      var n := |xs| - 1;
      HeadsExactly(xs[..n], ys[..n]);
      TailsEqual(Heads(xs[..n]), Head(xs[n]), Heads(ys[..n]), Head(ys[n]));
    }
  }

  lemma TailsEqual(x: Bytes, u: Bytes, y: Bytes, v: Bytes)
    requires |x| == |y|
    ensures x + u == y + v <==> x == y && u == v
  {
    if x + u == y + v {
      assert |x + u| == |y + v|;
      assert (x + u)[..|x|] == x && (y + v)[..|y|] == y;
      assert (x + u)[|x|..] == u && (y + v)[|y|..] == v;
    }
  }

  /** Two snapshots hash the same bytes if and only if height and count agree and every chunk hash agrees
      in its first 32 characters: the other half of each chunk hash is not covered. */
  lemma MetadataExactly(h1: nat, c1: nat, xs: seq<string>, h2: nat, c2: nat, ys: seq<string>)
    requires h1 < Pow256(8) && h2 < Pow256(8) && c1 < Pow256(4) && c2 < Pow256(4)
    ensures Metadata(h1, FORMAT_VERSION, c1, xs) == Metadata(h2, FORMAT_VERSION, c2, ys) <==>
      (h1 == h2 && c1 == c2 && |xs| == |ys| && forall i :: 0 <= i < |xs| ==> Head(xs[i]) == Head(ys[i]))
  {
    BigEndianExactly(h1, h2, 8);
    BigEndianExactly(c1, c2, 4);
    HeadsExactly(xs, ys);
    var f := BigEndian(FORMAT_VERSION, 4);
    var a1, a2 := BigEndian(h1, 8), BigEndian(h2, 8);
    var b1, b2 := BigEndian(c1, 4), BigEndian(c2, 4);
    TailsEqual(a1 + f + b1, Heads(xs), a2 + f + b2, Heads(ys));
    TailsEqual(a1 + f, b1, a2 + f, b2);
    TailsEqual(a1, f, a2, f);
  }

  lemma DivideTwice(n: nat, p: nat)
    requires p > 0
    ensures n / 256 / p == n / (256 * p)
  {
    var m := n / 256;
    var q, r := m / p, m % p;
    assert m == p * q + r;
    assert n == 256 * p * q + (256 * r + n % 256);
    assert 0 <= 256 * r + n % 256 < 256 * p;
    UniqueQuotient(n, 256 * p, q, 256 * r + n % 256);
  }

  lemma {:induction false} BigEndianDigit(n: nat, width: nat, k: nat)
    requires k < width
    ensures Pow256(width - 1 - k) > 0 && BigEndian(n, width)[k] == n / Pow256(width - 1 - k) % 256
  {
    if k < width - 1 {
      BigEndianDigit(n / 256, width - 1, k);
      DivideTwice(n, Pow256(width - 2 - k));
    }
  }

  lemma {:induction false} HeadsByte(hashes: seq<string>, i: nat, j: nat)
    requires i < |hashes| && j < 32
    ensures Heads(hashes)[32 * i + j] == if j < |hashes[i]| then hashes[i][j] as int % 256 else 0
  {
    if i < |hashes| - 1 {
      HeadsByte(hashes[..|hashes| - 1], i, j);
    }
  }

  /** Where each byte that is hashed comes from: eight of the height, the format version, four of the chunk
      count, then the first 32 characters of each chunk hash at their own place. */
  lemma MetadataBytes(height: nat, count: nat, hashes: seq<string>, k: nat, i: nat, j: nat)
    requires i < |hashes| && j < 32
    ensures var m := Metadata(height, FORMAT_VERSION, count, hashes);
      && |m| == 16 + 32 * |hashes|
      && (k < 8 ==> Pow256(7 - k) > 0 && m[k] == height / Pow256(7 - k) % 256)
      && m[8] == m[9] == m[10] == 0 && m[11] == 1
      && (k < 4 ==> Pow256(3 - k) > 0 && m[12 + k] == count / Pow256(3 - k) % 256)
      && m[16 + 32 * i + j] == if j < |hashes[i]| then hashes[i][j] as int % 256 else 0
  {
    if k < 8 {
      BigEndianDigit(height, 8, k);
    }
    if k < 4 {
      BigEndianDigit(count, 4, k);
    }
    assert BigEndian(FORMAT_VERSION, 4) == [0, 0, 0, 1];
    HeadsByte(hashes, i, j);
  }

  function StoreAll(sha: Bytes -> string, store: map<string, Bytes>, parts: seq<Bytes>): map<string, Bytes> {
    if parts == [] then store
    else StoreAll(sha, store, parts[..|parts| - 1])[sha(parts[|parts| - 1]) := parts[|parts| - 1]]
  }

  ghost predicate Addressed(sha: Bytes -> string, store: map<string, Bytes>) {
    forall h :: h in store ==> sha(store[h]) == h
  }

  /** All hashes are stored. */
  predicate Complete(store: map<string, Bytes>, hashes: seq<string>) {
    forall i :: 0 <= i < |hashes| ==> hashes[i] in store
  }

  function Fetch(store: map<string, Bytes>, hashes: seq<string>): Bytes
    requires Complete(store, hashes)
  {
    if hashes == [] then [] else Fetch(store, hashes[..|hashes| - 1]) + store[hashes[|hashes| - 1]]
  }

  function Rebuild(store: map<string, Bytes>, hashes: seq<string>): Option<Bytes> {
    if Complete(store, hashes) then Some(Fetch(store, hashes)) else None
  }

  lemma {:induction false} StoreAllAddressed(sha: Bytes -> string, store: map<string, Bytes>, parts: seq<Bytes>)
    requires Addressed(sha, store)
    ensures Addressed(sha, StoreAll(sha, store, parts))
    ensures Complete(StoreAll(sha, store, parts), Hashes(sha, parts))
    ensures store.Keys <= StoreAll(sha, store, parts).Keys
  {
    if parts != [] {
      StoreAllAddressed(sha, store, parts[..|parts| - 1]);
      assert Hashes(sha, parts[..|parts| - 1]) == Hashes(sha, parts)[..|parts| - 1];
      forall i | 0 <= i < |parts| ensures Hashes(sha, parts)[i] in StoreAll(sha, store, parts) {
        if i < |parts| - 1 {
          assert Hashes(sha, parts[..|parts| - 1])[i] in StoreAll(sha, store, parts[..|parts| - 1]);
        }
      }
    }
  }

  // ---------- Later calls ----------

  datatype Step =
    | CreateStep(parts: seq<Bytes>)
    | ChunkStep(chunk: Bytes, chunkHash: string)

  /** What the calls do to the chunk store; a snapshot that exists already stores nothing. */
  function Apply(sha: Bytes -> string, store: map<string, Bytes>, step: Step): map<string, Bytes> {
    match step
    case CreateStep(parts) => StoreAll(sha, store, parts)
    case ChunkStep(chunk, chunkHash) => if sha(chunk) == chunkHash then store[chunkHash := chunk] else store
  }

  function Run(sha: Bytes -> string, store: map<string, Bytes>, steps: seq<Step>): map<string, Bytes> {
    if steps == [] then store
    else Apply(sha, Run(sha, store, steps[..|steps| - 1]), steps[|steps| - 1])
  }

  lemma {:induction false} RunAddressed(sha: Bytes -> string, store: map<string, Bytes>, steps: seq<Step>)
    requires Addressed(sha, store)
    ensures Addressed(sha, Run(sha, store, steps))
    ensures store.Keys <= Run(sha, store, steps).Keys
  {
    if steps != [] {
      RunAddressed(sha, store, steps[..|steps| - 1]);
      match steps[|steps| - 1] {
        case CreateStep(parts) => StoreAllAddressed(sha, Run(sha, store, steps[..|steps| - 1]), parts);
        case ChunkStep(_, _) =>
      }
    }
  }

  /** The stored chunk under a part's hash is another chunk with the same hash. */
  ghost predicate CollisionStored(sha: Bytes -> string, store: map<string, Bytes>, part: Bytes) {
    sha(part) in store && store[sha(part)] != part && sha(store[sha(part)]) == sha(part)
  }

  lemma {:induction false} FetchRebuilds(sha: Bytes -> string, store: map<string, Bytes>, parts: seq<Bytes>)
    requires Addressed(sha, store) && Complete(store, Hashes(sha, parts))
    ensures Fetch(store, Hashes(sha, parts)) == Concat(parts)
      || exists i :: 0 <= i < |parts| && CollisionStored(sha, store, parts[i])
  {
    if parts != [] {
      var n := |parts| - 1;
      assert Hashes(sha, parts)[..n] == Hashes(sha, parts[..n]);
      assert Hashes(sha, parts)[n] == sha(parts[n]);
      FetchRebuilds(sha, store, parts[..n]);
      if i :| 0 <= i < n && CollisionStored(sha, store, parts[..n][i]) {
        assert CollisionStored(sha, store, parts[i]);
      } else if store[sha(parts[n])] != parts[n] {
        assert CollisionStored(sha, store, parts[n]);
      }
    }
  }

  /** After a snapshot is created, any later calls leave its bytes recoverable: the hash lookup
      rebuilds exactly the exported state, or a hash collision has been stored. */
  lemma SnapshotRecoverable(sha: Bytes -> string, store: map<string, Bytes>, state: Bytes, parts: seq<Bytes>,
      steps: seq<Step>)
    requires Addressed(sha, store) && Concat(parts) == state
    ensures var later := Run(sha, StoreAll(sha, store, parts), steps);
      || Rebuild(later, Hashes(sha, parts)) == Some(state)
      || exists i :: 0 <= i < |parts| && CollisionStored(sha, later, parts[i])
  {
    StoreAllAddressed(sha, store, parts);
    RunAddressed(sha, StoreAll(sha, store, parts), steps);
    var later := Run(sha, StoreAll(sha, store, parts), steps);
    assert Complete(later, Hashes(sha, parts));
    FetchRebuilds(sha, later, parts);
  }

  /** The chunks stored under the hashes, one by one. */
  ghost predicate HoldsAll(store: map<string, Bytes>, hashes: seq<string>, chunks: seq<Bytes>) {
    |chunks| == |hashes| && forall i :: 0 <= i < |hashes| ==> hashes[i] in store && store[hashes[i]] == chunks[i]
  }

  /** A snapshot is rebuilt if and only if all of its hashes are stored, and then it is the stored chunks in
      the order of the hashes. */
  lemma {:induction false} RebuildExactly(store: map<string, Bytes>, hashes: seq<string>, chunks: seq<Bytes>)
    ensures Rebuild(store, hashes).Some? <==> forall h :: h in hashes ==> h in store
    ensures HoldsAll(store, hashes, chunks) ==> Rebuild(store, hashes) == Some(Concat(chunks))
  {
    if hashes != [] && HoldsAll(store, hashes, chunks) {
      RebuildExactly(store, hashes[..|hashes| - 1], chunks[..|chunks| - 1]);
    }
  }
}
