/** Uploading a file in chunks: the server keeps one part file per chunk and joins them in name
    order once there are enough; the client cuts the file into slices. */
module ChunkUpload {
  import opened PartNames

  type Bytes = seq<bv8>

  /** One organisation's part files and finished files. */
  datatype Dirs = Dirs(parts: map<string, Bytes>, files: map<string, Bytes>)

  datatype Reply = Uploading | Complete(size: nat)

  function Mine(parts: map<string, Bytes>, fileId: string): set<string> {
    set p | p in parts && StartsWith(p, fileId)
  }

  function Concat(names: seq<string>, parts: map<string, Bytes>): Bytes
    requires forall k :: 0 <= k < |names| ==> names[k] in parts
  {
    if names == [] then [] else Concat(names[..|names| - 1], parts) + parts[names[|names| - 1]]
  }

  /** One chunk arrives: store its part, and join all parts once there are enough of them. */
  ghost function Receive(d: Dirs, fileId: string, index: int, total: int, filename: string, data: Bytes)
    : (Dirs, Reply)
  {
    var parts := d.parts[PartName(fileId, index) := data];
    var names := Sorted(Mine(parts, fileId));
    if |names| < total then (Dirs(parts, d.files), Uploading)
    else
      assert forall k :: 0 <= k < |names| ==> names[k] in Mine(parts, fileId);
      var whole := Concat(names, parts);
      (Dirs(parts - Mine(parts, fileId), d.files[fileId + "_" + filename := whole]), Complete(|whole|))
  }

  class Uploads {
    var parts: map<string, Bytes>
    var files: map<string, Bytes>

    function Model(): Dirs
      reads this
    {
      Dirs(parts, files)
    }

    constructor ()
      ensures Model() == Dirs(map[], map[])
    {
      parts, files := map[], map[];
    }

    method UploadChunk(fileId: string, index: int, total: int, filename: string, data: Bytes) returns (reply: Reply)
      modifies this
      ensures (Model(), reply) == Receive(old(Model()), fileId, index, total, filename, data)
    {
      parts := parts[PartName(fileId, index) := data];
      var mine := Mine(parts, fileId);
      var allParts := SortNames(mine);
      ListingIsUnique(allParts, Sorted(mine), mine);
      if |allParts| < total {
        return Uploading;
      }
      assert forall k :: 0 <= k < |allParts| ==> allParts[k] in mine;
      var out := JoinAndRemove(allParts, mine);
      files := files[fileId + "_" + filename := out];
      reply := Complete(|out|);
    }

    method JoinAndRemove(names: seq<string>, ghost mine: set<string>) returns (out: Bytes)
      requires Lists(names, mine) && mine <= parts.Keys
      requires forall k :: 0 <= k < |names| ==> names[k] in parts
      modifies this`parts
      ensures out == Concat(names, old(parts))
      ensures parts == old(parts) - mine
    {
      out := [];
      var k := 0;
      ghost var gone := {};
      while k < |names|
        invariant 0 <= k <= |names|
        invariant out == Concat(names[..k], old(parts))
        invariant forall x :: x in gone <==> x in names[..k]
        invariant parts == old(parts) - gone
      {
        assert names[k] !in names[..k] by {
          LessIrreflexive(names[k]);
        }
        assert names[..k + 1][..k] == names[..k] && names[..k + 1] == names[..k] + [names[k]];
        out := out + parts[names[k]];
        parts := parts - {names[k]};
        gone := gone + {names[k]};
        k := k + 1;
      }
      assert names[..k] == names;
      assert gone == mine;
    }
  }

  // ---- any arrival order ---------------------------------------------------------------------------

  /** The chunks in index order. */
  function Flatten(chunks: seq<Bytes>): Bytes {
    if chunks == [] then [] else Flatten(chunks[..|chunks| - 1]) + chunks[|chunks| - 1]
  }

  /** Chunks of one file arrive in the order `arrivals`. */
  ghost function Deliver(d: Dirs, fileId: string, filename: string, chunks: seq<Bytes>, arrivals: seq<nat>)
    : (Dirs, Reply)
    requires forall k :: 0 <= k < |arrivals| ==> arrivals[k] < |chunks|
  {
    if arrivals == [] then (d, Uploading)
    else
      var last := arrivals[|arrivals| - 1];
      var before := Deliver(d, fileId, filename, chunks, arrivals[..|arrivals| - 1]).0;
      Receive(before, fileId, last, |chunks|, filename, chunks[last])
  }

  /** No part in the directory bears a name that begins with this file's identifier. */
  predicate Clean(d: Dirs, fileId: string) {
    Mine(d.parts, fileId) == {}
  }

  predicate Covers(arrivals: seq<nat>, n: nat) {
    forall i: nat :: i < n ==> i in arrivals
  }

  ghost predicate IsPart(fileId: string, arrivals: seq<nat>, p: string) {
    exists i :: i in arrivals && p == PartName(fileId, i)
  }

  lemma IsPartMore(fileId: string, before: seq<nat>, last: nat, p: string)
    ensures IsPart(fileId, before + [last], p) <==> IsPart(fileId, before, p) || p == PartName(fileId, last)
  {
    assert last in before + [last];
    if IsPart(fileId, before, p) {
      var i :| i in before && p == PartName(fileId, i);
      assert i in before + [last];
    }
  }

  ghost predicate Domain(old0: map<string, Bytes>, parts: map<string, Bytes>, fileId: string, arrivals: seq<nat>) {
    && (forall p :: p in parts <==> p in old0 || IsPart(fileId, arrivals, p))
    && (forall p :: p in old0 && p in parts ==> parts[p] == old0[p])
  }

  ghost predicate Values(parts: map<string, Bytes>, fileId: string, chunks: seq<Bytes>, arrivals: seq<nat>) {
    forall i :: i in arrivals ==>
      i < |chunks| && PartName(fileId, i) in parts && parts[PartName(fileId, i)] == chunks[i]
  }

  /** The directory with exactly the parts that arrived added to it. */
  ghost predicate HasParts(d: Dirs, now: Dirs, fileId: string, chunks: seq<Bytes>, arrivals: seq<nat>) {
    now.files == d.files && Domain(d.parts, now.parts, fileId, arrivals) && Values(now.parts, fileId, chunks, arrivals)
  }

  lemma OwnName(fileId: string, i: int)
    ensures StartsWith(PartName(fileId, i), fileId)
  {
  }

  lemma NotThere(d: Dirs, fileId: string, i: nat)
    requires Clean(d, fileId)
    ensures PartName(fileId, i) !in d.parts
  {
    OwnName(fileId, i);
    assert PartName(fileId, i) in d.parts ==> PartName(fileId, i) in Mine(d.parts, fileId);
  }

  lemma ValuesAdded(parts: map<string, Bytes>, fileId: string, chunks: seq<Bytes>, before: seq<nat>, last: nat)
    requires |chunks| <= 10000 && last < |chunks| && Values(parts, fileId, chunks, before)
    ensures Values(parts[PartName(fileId, last) := chunks[last]], fileId, chunks, before + [last])
  {
    var next := parts[PartName(fileId, last) := chunks[last]];
    forall i | i in before + [last]
      ensures i < |chunks| && PartName(fileId, i) in next && next[PartName(fileId, i)] == chunks[i]
    {
      if i != last {
        assert i in before;
        NameOrder(fileId, i, last);
      }
    }
  }

  lemma PartAdded(d: Dirs, now: Dirs, fileId: string, chunks: seq<Bytes>, before: seq<nat>, last: nat)
    requires Clean(d, fileId) && |chunks| <= 10000 && last < |chunks|
    requires HasParts(d, now, fileId, chunks, before)
    ensures var parts := now.parts[PartName(fileId, last) := chunks[last]];
            HasParts(d, now.(parts := parts), fileId, chunks, before + [last])
  {
    NotThere(d, fileId, last);
    ValuesAdded(now.parts, fileId, chunks, before, last);
    var next := now.parts[PartName(fileId, last) := chunks[last]];
    forall p ensures p in next <==> p in d.parts || IsPart(fileId, before + [last], p) {
      IsPartMore(fileId, before, last, p);
    }
  }

  /** The indices below `n` that arrived, in order. */
  function Present(arrivals: seq<nat>, n: nat): (r: seq<nat>)
    ensures forall k :: 0 <= k < |r| ==> r[k] < n && r[k] in arrivals
    ensures forall j, k :: 0 <= j < k < |r| ==> r[j] < r[k]
    ensures |r| <= n
  {
    if n == 0 then [] else Present(arrivals, n - 1) + if n - 1 in arrivals then [n - 1] else []
  }

  lemma {:induction false} PresentHas(arrivals: seq<nat>, n: nat, i: nat)
    requires i < n && i in arrivals
    ensures i in Present(arrivals, n)
  {
    if i < n - 1 {
      PresentHas(arrivals, n - 1, i);
    }
  }

  lemma {:induction false} PresentCounts(arrivals: seq<nat>, n: nat)
    ensures |Present(arrivals, n)| == n <==> Covers(arrivals, n)
  {
    if n > 0 {
      PresentCounts(arrivals, n - 1);
      assert Covers(arrivals, n) <==> Covers(arrivals, n - 1) && n - 1 in arrivals;
    }
  }

  lemma {:induction false} PresentIsIdentity(arrivals: seq<nat>, n: nat)
    requires |Present(arrivals, n)| == n
    ensures forall i :: 0 <= i < n ==> Present(arrivals, n)[i] == i
  {
    if n > 0 {
      PresentIsIdentity(arrivals, n - 1);
    }
  }

  function Names(fileId: string, indices: seq<nat>): (r: seq<string>)
    ensures |r| == |indices| && forall k :: 0 <= k < |r| ==> r[k] == PartName(fileId, indices[k])
  {
    seq(|indices|, k requires 0 <= k < |indices| => PartName(fileId, indices[k]))
  }

  /** The sorted listing is the arrived indices in order. */
  lemma ListingInIndexOrder(d: Dirs, now: Dirs, fileId: string, chunks: seq<Bytes>, arrivals: seq<nat>)
    requires Clean(d, fileId) && |chunks| <= 10000 && HasParts(d, now, fileId, chunks, arrivals)
    requires forall k :: 0 <= k < |arrivals| ==> arrivals[k] < |chunks|
    ensures Sorted(Mine(now.parts, fileId)) == Names(fileId, Present(arrivals, |chunks|))
  {
    hide PartName, Less, Values, StartsWith;
    var present := Present(arrivals, |chunks|);
    var names := Names(fileId, present);
    forall j, k | 0 <= j < k < |names| ensures Less(names[j], names[k]) {
      NameOrder(fileId, present[j], present[k]);
    }
    forall x ensures x in names <==> x in Mine(now.parts, fileId) {
      if x in names {
        var k :| 0 <= k < |names| && names[k] == x;
        OwnName(fileId, present[k]);
      }
      if x in Mine(now.parts, fileId) {
        assert x in d.parts ==> x in Mine(d.parts, fileId);
        var i :| i in arrivals && x == PartName(fileId, i);
        PresentHas(arrivals, |chunks|, i);
        var k :| 0 <= k < |present| && present[k] == i;
        assert names[k] == x;
      }
    }
    ListingIsUnique(names, Sorted(Mine(now.parts, fileId)), Mine(now.parts, fileId));
  }

  lemma {:induction false} ConcatInOrder(names: seq<string>, parts: map<string, Bytes>, chunks: seq<Bytes>)
    requires |names| == |chunks|
    requires forall k :: 0 <= k < |names| ==> names[k] in parts && parts[names[k]] == chunks[k]
    ensures Concat(names, parts) == Flatten(chunks)
  {
    if names != [] {
      ConcatInOrder(names[..|names| - 1], parts, chunks[..|chunks| - 1]);
    }
  }

  /** Until every index has arrived nothing is joined, whatever the order and the repeats. */
  lemma {:induction false} WaitsForAll(
    d: Dirs, fileId: string, filename: string, chunks: seq<Bytes>, arrivals: seq<nat>)
    requires Clean(d, fileId) && |chunks| <= 10000
    requires forall k :: 0 <= k < |arrivals| ==> arrivals[k] < |chunks|
    requires !Covers(arrivals, |chunks|)
    ensures Deliver(d, fileId, filename, chunks, arrivals).1 == Uploading
    ensures HasParts(d, Deliver(d, fileId, filename, chunks, arrivals).0, fileId, chunks, arrivals)
    decreases |arrivals|
  {
    if arrivals != [] {
      var before, last := arrivals[..|arrivals| - 1], arrivals[|arrivals| - 1];
      assert arrivals == before + [last];
      WaitsForAll(d, fileId, filename, chunks, before);
      var now := Deliver(d, fileId, filename, chunks, before).0;
      PartAdded(d, now, fileId, chunks, before, last);
      var stored := now.(parts := now.parts[PartName(fileId, last) := chunks[last]]);
      ListingInIndexOrder(d, stored, fileId, chunks, arrivals);
      PresentCounts(arrivals, |chunks|);
    }
  }

  /** The upload completes exactly when the last missing index arrives: then the file is the
      chunks in index order, and the directory of parts is as it was before the upload. */
  lemma CompletesAtLastIndex(d: Dirs, fileId: string, filename: string, chunks: seq<Bytes>, arrivals: seq<nat>)
    requires Clean(d, fileId) && 1 <= |chunks| <= 10000
    requires forall k :: 0 <= k < |arrivals| ==> arrivals[k] < |chunks|
    requires arrivals != [] && Covers(arrivals, |chunks|) && !Covers(arrivals[..|arrivals| - 1], |chunks|)
    ensures Deliver(d, fileId, filename, chunks, arrivals)
            == (Dirs(d.parts, d.files[fileId + "_" + filename := Flatten(chunks)]), Complete(|Flatten(chunks)|))
  {
    var before, last := arrivals[..|arrivals| - 1], arrivals[|arrivals| - 1];
    assert arrivals == before + [last];
    WaitsForAll(d, fileId, filename, chunks, before);
    var now := Deliver(d, fileId, filename, chunks, before).0;
    PartAdded(d, now, fileId, chunks, before, last);
    var stored := now.(parts := now.parts[PartName(fileId, last) := chunks[last]]);
    ListingInIndexOrder(d, stored, fileId, chunks, arrivals);
    JoinsAll(fileId, stored.parts, chunks, arrivals);
    OnlyOwnRemoved(d, stored, fileId, arrivals);
  }

  /** All parts joined in index order. */
  lemma JoinsAll(fileId: string, parts: map<string, Bytes>, chunks: seq<Bytes>, arrivals: seq<nat>)
    requires Values(parts, fileId, chunks, arrivals) && Covers(arrivals, |chunks|)
    ensures var names := Names(fileId, Present(arrivals, |chunks|));
            && |names| == |chunks| && (forall k :: 0 <= k < |names| ==> names[k] in parts)
            && Concat(names, parts) == Flatten(chunks)
  {
    PresentCounts(arrivals, |chunks|);
    PresentIsIdentity(arrivals, |chunks|);
    var names := Names(fileId, Present(arrivals, |chunks|));
    forall k | 0 <= k < |names| ensures names[k] in parts && parts[names[k]] == chunks[k] {
      assert k in arrivals && names[k] == PartName(fileId, k);
    }
    ConcatInOrder(names, parts, chunks);
  }

  lemma OnlyOwnRemoved(d: Dirs, stored: Dirs, fileId: string, arrivals: seq<nat>)
    requires Clean(d, fileId) && Domain(d.parts, stored.parts, fileId, arrivals)
    ensures stored.parts - Mine(stored.parts, fileId) == d.parts
  {
    var rest := stored.parts - Mine(stored.parts, fileId);
    forall p ensures p in rest <==> p in d.parts {
      if p in d.parts {
        assert p in Mine(d.parts, fileId) <==> StartsWith(p, fileId);
      } else if p in stored.parts {
        var i :| i in arrivals && p == PartName(fileId, i);
        OwnName(fileId, i);
      }
    }
  }

  // ---- when the server waits for every chunk ---------------------------------------------------------

  predicate InRange(arrivals: seq<nat>, n: nat) {
    forall k :: 0 <= k < |arrivals| ==> arrivals[k] < n
  }

  /** Nothing is joined before every index has arrived, in whatever order they come. */
  ghost predicate AlwaysWaits(d: Dirs, fileId: string, filename: string, chunks: seq<Bytes>) {
    forall arrivals | InRange(arrivals, |chunks|) && !Covers(arrivals, |chunks|) ::
      Deliver(d, fileId, filename, chunks, arrivals).1 == Uploading
  }

  /** The first `k` indices other than `j`. */
  function Others(j: nat, k: nat): (r: seq<nat>)
    ensures |r| == k && j !in r
    ensures forall i :: 0 <= i < k ==> r[i] == if i < j then i else i + 1
  {
    seq(k, i requires 0 <= i => if i < j then i else i + 1)
  }

  lemma {:induction false} NoRepeatsFit(names: seq<string>, all: set<string>)
    requires forall i, j :: 0 <= i < j < |names| ==> names[i] != names[j]
    requires forall i :: 0 <= i < |names| ==> names[i] in all
    ensures |names| <= |all|
  {
    if names != [] {
      NoRepeatsFit(names[1..], all - {names[0]});
    }
  }

  lemma {:induction false} ListingSize(names: seq<string>, all: set<string>)
    requires Lists(names, all)
    ensures |names| == |all|
  {
    if names == [] {
      assert all == {};
    } else {
      TailLists(names, all);
      assert names[0] in all;
      ListingSize(names[1..], all - {names[0]});
    }
  }

  /** A chunk that is answered with a wait has been stored, and the parts are still too few. */
  lemma StoredWhenWaiting(d: Dirs, fileId: string, index: int, total: int, filename: string, data: Bytes)
    requires Receive(d, fileId, index, total, filename, data).1 == Uploading
    ensures var now := Receive(d, fileId, index, total, filename, data).0;
            now.parts == d.parts[PartName(fileId, index) := data] && |Sorted(Mine(now.parts, fileId))| < total
  {
  }

  ghost predicate Holds(parts: map<string, Bytes>, fileId: string, indices: seq<nat>) {
    forall i :: i in indices ==> PartName(fileId, i) in parts
  }

  /** While the server waits, parts pile up on those that were there. */
  lemma {:induction false} PilesUp(d: Dirs, fileId: string, filename: string, chunks: seq<Bytes>, j: nat, k: nat)
    requires AlwaysWaits(d, fileId, filename, chunks) && j < |chunks| && k < |chunks|
    ensures InRange(Others(j, k), |chunks|)
    ensures var now := Deliver(d, fileId, filename, chunks, Others(j, k)).0;
            && d.parts.Keys <= now.parts.Keys && Holds(now.parts, fileId, Others(j, k))
            && (k > 0 ==> |Sorted(Mine(now.parts, fileId))| < |chunks|)
  {
    hide Receive, Mine, PartName;
    var arrivals := Others(j, k);
    assert InRange(arrivals, |chunks|) && !Covers(arrivals, |chunks|);
    assert Deliver(d, fileId, filename, chunks, arrivals).1 == Uploading;
    if k > 0 {
      PilesUp(d, fileId, filename, chunks, j, k - 1);
      assert arrivals[..k - 1] == Others(j, k - 1);
      var before := Deliver(d, fileId, filename, chunks, Others(j, k - 1)).0;
      var last := arrivals[k - 1];
      StoredWhenWaiting(before, fileId, last, |chunks|, filename, chunks[last]);
      assert arrivals == Others(j, k - 1) + [last];
    }
  }

  /** One part more than the indices that have arrived. */
  lemma TooMany(parts: map<string, Bytes>, fileId: string, p: string, j: nat, n: nat)
    requires 0 < n <= 10000 && p in Mine(parts, fileId) && Holds(parts, fileId, Others(j, n - 1))
    requires forall i :: 0 <= i < n && i != j ==> p != PartName(fileId, i)
    ensures |Sorted(Mine(parts, fileId))| >= n
  {
    var others := Others(j, n - 1);
    var rest := Names(fileId, others);
    forall i, k | 0 <= i < k < n - 1 ensures rest[i] != rest[k] {
      NameOrder(fileId, others[i], others[k]);
    }
    forall i | 0 <= i < n - 1 ensures rest[i] in Mine(parts, fileId) && rest[i] != p {
      OwnName(fileId, others[i]);
      assert others[i] in others;
    }
    NoRepeatsFit([p] + rest, Mine(parts, fileId));
    ListingSize(Sorted(Mine(parts, fileId)), Mine(parts, fileId));
  }

  /** The index whose part, if any, is there already. */
  lemma IndexOf(fileId: string, p: string, n: nat) returns (j: nat)
    requires 0 < n <= 10000
    ensures j < n && forall i :: 0 <= i < n && i != j ==> p != PartName(fileId, i)
  {
    j := 0;
    if k :| 0 <= k < n && p == PartName(fileId, k) {
      j := k;
      forall i | 0 <= i < n && i != j ensures p != PartName(fileId, i) {
        NameOrder(fileId, i, j);
      }
    }
  }

  /** An upload of two or more chunks always waits for every index exactly when no part name in
      the directory begins with its identifier: a single such part, of another upload or left over
      from an earlier one, lets it complete with a chunk missing. */
  lemma WaitsExactlyWhenClean(d: Dirs, fileId: string, filename: string, chunks: seq<Bytes>)
    requires 2 <= |chunks| <= 10000
    ensures AlwaysWaits(d, fileId, filename, chunks)
            <==> forall p :: p in d.parts ==> |p| < |fileId| || p[..|fileId|] != fileId
  {
    hide Deliver, PartName;
    var n := |chunks|;
    assert forall p :: p in Mine(d.parts, fileId) <==> p in d.parts && |p| >= |fileId| && p[..|fileId|] == fileId;
    if Clean(d, fileId) {
      forall arrivals | InRange(arrivals, n) && !Covers(arrivals, n)
        ensures Deliver(d, fileId, filename, chunks, arrivals).1 == Uploading
      {
        WaitsForAll(d, fileId, filename, chunks, arrivals);
      }
    } else if AlwaysWaits(d, fileId, filename, chunks) {
      var p :| p in Mine(d.parts, fileId);
      var j := IndexOf(fileId, p, n);
      PilesUp(d, fileId, filename, chunks, j, n - 1);
      TooMany(Deliver(d, fileId, filename, chunks, Others(j, n - 1)).0.parts, fileId, p, j, n);
      assert false;
    }
  }

  // ---- the client's slices ---------------------------------------------------------------------------

  function Min(a: int, b: int): int {
    if a <= b then a else b
  }

  /** The number of slices of `size` bytes, rounded up. */
  function SliceCount(length: nat, size: nat): nat
    requires size > 0
  {
    (length + size - 1) / size
  }

  /** One slice; cutting past the end stops at the end. */
  function Slice(file: Bytes, from: nat, to: nat): Bytes
    requires from <= to
  {
    file[Min(from, |file|)..Min(to, |file|)]
  }

  /** The slices the client sends. */
  function FileSlices(file: Bytes, size: nat): (r: seq<Bytes>)
    requires size > 0
    ensures |r| == SliceCount(|file|, size)
  {
    seq(SliceCount(|file|, size), i requires 0 <= i => Slice(file, i * size, i * size + size))
  }

  /** Consecutive cuts put together again. */
  lemma {:induction false} CutsRejoin(file: Bytes, cuts: seq<nat>, chunks: seq<Bytes>)
    requires |cuts| == |chunks| + 1 && cuts[0] == 0
    requires forall i :: 0 <= i < |chunks| ==> cuts[i] <= cuts[i + 1] && chunks[i] == Slice(file, cuts[i], cuts[i + 1])
    ensures Flatten(chunks) == file[..Min(cuts[|chunks|], |file|)]
    decreases |chunks|
  {
    if chunks != [] {
      var n := |chunks| - 1;
      CutsRejoin(file, cuts[..n + 1], chunks[..n]);
      var lo, hi := Min(cuts[n], |file|), Min(cuts[n + 1], |file|);
      assert file[..lo] + file[lo..hi] == file[..hi];
    }
  }

  lemma CountCovers(length: nat, size: nat)
    requires size > 0
    ensures SliceCount(length, size) * size >= length
  {
    var sum := length + size - 1;
    assert sum == (sum / size) * size + sum % size;
  }

  lemma Distribute(i: nat, size: nat)
    ensures i * size + size == (i + 1) * size && 0 * size == 0
  {
  }

  lemma AllSlices(file: Bytes, size: nat)
    requires size > 0
    ensures Flatten(FileSlices(file, size)) == file
  {
    var n := SliceCount(|file|, size);
    var cuts := seq(n + 1, i requires 0 <= i => i * size);
    var chunks := FileSlices(file, size);
    forall i | 0 <= i < n ensures cuts[i] <= cuts[i + 1] && chunks[i] == Slice(file, cuts[i], cuts[i + 1]) {
      Distribute(i, size);
    }
    CutsRejoin(file, cuts, chunks);
    CountCovers(|file|, size);
  }

  /** The number of slices is the least that holds the file: all but the last are full. */
  lemma CountIsLeast(length: nat, size: nat)
    requires size > 0
    ensures var n := SliceCount(length, size);
            length <= n * size && (n > 0 ==> (n - 1) * size < length) && (n == 0 <==> length == 0)
  {
    var sum := length + size - 1;
    var n := sum / size;
    assert sum == n * size + sum % size && sum % size < size;
    if n > 0 {
      assert (n - 1) * size == n * size - size;
    }
  }

  /** Slice `i` is the bytes from `i` times the size on: a full slice, or what the end of the file
      leaves for the last one, and never an empty one. */
  lemma SlicesAreFull(file: Bytes, size: nat, i: nat)
    requires size > 0 && i < SliceCount(|file|, size)
    ensures var slice := FileSlices(file, size)[i];
            && 0 <= i * size < |file|
            && |slice| == (if i * size + size <= |file| then size else |file| - i * size)
            && (i + 1 < SliceCount(|file|, size) ==> |slice| == size)
            && slice == file[i * size..i * size + |slice|]
  {
    var n := SliceCount(|file|, size);
    CountIsLeast(|file|, size);
    assert i * size <= (n - 1) * size;
    if i + 1 < n {
      assert (i + 1) * size <= (n - 1) * size;
      Distribute(i, size);
    }
  }

  /** Cutting a file and uploading the slices, in any order and with repeats, stores the file. */
  lemma UploadIsIdentity(d: Dirs, fileId: string, filename: string, file: Bytes, size: nat, arrivals: seq<nat>)
    requires size > 0 && 1 <= SliceCount(|file|, size) <= 10000 && Clean(d, fileId)
    requires forall k :: 0 <= k < |arrivals| ==> arrivals[k] < SliceCount(|file|, size)
    requires arrivals != [] && Covers(arrivals, SliceCount(|file|, size))
    requires !Covers(arrivals[..|arrivals| - 1], SliceCount(|file|, size))
    ensures Deliver(d, fileId, filename, FileSlices(file, size), arrivals)
            == (Dirs(d.parts, d.files[fileId + "_" + filename := file]), Complete(|file|))
  {
    AllSlices(file, size);
    CompletesAtLastIndex(d, fileId, filename, FileSlices(file, size), arrivals);
  }
}
