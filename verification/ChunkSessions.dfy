/** Several uploads at once: chunks of other files that arrive in between change nothing, as long as
    no identifier is a prefix of another upload's part names. */
module ChunkSessions {
  import opened PartNames
  import opened ChunkUpload

  datatype Arrival = Arrival(fileId: string, index: int, total: int, filename: string, data: Bytes)

  ghost function Take(d: Dirs, a: Arrival): (Dirs, Reply) {
    Receive(d, a.fileId, a.index, a.total, a.filename, a.data)
  }

  /** The directories after a session. */
  ghost function After(d: Dirs, arrivals: seq<Arrival>): Dirs {
    if arrivals == [] then d else Take(After(d, arrivals[..|arrivals| - 1]), arrivals[|arrivals| - 1]).0
  }

  /** The replies to the chunks of one file. */
  ghost function Replies(d: Dirs, arrivals: seq<Arrival>, fileId: string): seq<Reply> {
    if arrivals == [] then []
    else
      var before, last := arrivals[..|arrivals| - 1], arrivals[|arrivals| - 1];
      var replies := Replies(d, before, fileId);
      if last.fileId == fileId then replies + [Take(After(d, before), last).1] else replies
  }

  /** The chunks of one file, in the order of their arrival. */
  function Own(arrivals: seq<Arrival>, fileId: string): seq<Arrival> {
    if arrivals == [] then []
    else
      var own, last := Own(arrivals[..|arrivals| - 1], fileId), arrivals[|arrivals| - 1];
      if last.fileId == fileId then own + [last] else own
  }

  /** Neither identifier is a prefix of a part name of the other. */
  ghost predicate Apart(f: string, g: string) {
    forall i: int :: !StartsWith(PartName(g, i), f) && !StartsWith(PartName(f, i), g)
  }

  ghost predicate OthersApart(arrivals: seq<Arrival>, fileId: string) {
    forall k :: 0 <= k < |arrivals| && arrivals[k].fileId != fileId ==> Apart(fileId, arrivals[k].fileId)
  }

  ghost predicate PartsAlike(p: map<string, Bytes>, q: map<string, Bytes>, fileId: string) {
    && Mine(p, fileId) == Mine(q, fileId)
    && forall x :: x in Mine(p, fileId) ==> p[x] == q[x]
  }

  ghost predicate FilesAlike(p: map<string, Bytes>, q: map<string, Bytes>, fileId: string) {
    forall x :: var name := fileId + "_" + x;
      (name in p <==> name in q) && (name in p && name in q ==> p[name] == q[name])
  }

  /** The two directories hold the same of this file: its parts, and what is stored under its names. */
  ghost predicate Alike(d: Dirs, e: Dirs, fileId: string) {
    PartsAlike(d.parts, e.parts, fileId) && FilesAlike(d.files, e.files, fileId)
  }

  lemma {:induction false} SameConcat(names: seq<string>, p: map<string, Bytes>, q: map<string, Bytes>)
    requires forall k :: 0 <= k < |names| ==> names[k] in p && names[k] in q && p[names[k]] == q[names[k]]
    ensures Concat(names, p) == Concat(names, q)
  {
    if names != [] {
      SameConcat(names[..|names| - 1], p, q);
    }
  }

  lemma StoredAlike(p: map<string, Bytes>, q: map<string, Bytes>, fileId: string, name: string, data: Bytes)
    requires PartsAlike(p, q, fileId)
    ensures PartsAlike(p[name := data], q[name := data], fileId)
  {
    assert forall x :: x in Mine(p, fileId) <==> x in Mine(q, fileId);
    var p', q' := p[name := data], q[name := data];
    assert forall x :: x != name ==> (x in Mine(p', fileId) <==> x in Mine(p, fileId));
    assert forall x :: x != name ==> (x in Mine(q', fileId) <==> x in Mine(q, fileId));
    assert Mine(p', fileId) == Mine(q', fileId);
  }

  lemma JoinedAlike(p: map<string, Bytes>, q: map<string, Bytes>, fileId: string)
    requires PartsAlike(p, q, fileId)
    ensures var names := Sorted(Mine(p, fileId));
            && (forall k :: 0 <= k < |names| ==> names[k] in p && names[k] in q)
            && Concat(names, p) == Concat(names, q)
    ensures Mine(p - Mine(p, fileId), fileId) == {} == Mine(q - Mine(q, fileId), fileId)
  {
    var names := Sorted(Mine(p, fileId));
    assert forall k :: 0 <= k < |names| ==> names[k] in names && names[k] in Mine(p, fileId);
    assert forall x :: x in Mine(q, fileId) ==> x in q;
    SameConcat(names, p, q);
  }

  /** A chunk of the file itself is answered alike and leaves the directories alike. */
  lemma OwnChunk(d: Dirs, e: Dirs, a: Arrival)
    requires Alike(d, e, a.fileId)
    ensures Take(d, a).1 == Take(e, a).1 && Alike(Take(d, a).0, Take(e, a).0, a.fileId)
  {
    hide PartName, Mine, Concat, StartsWith;
    var name := PartName(a.fileId, a.index);
    StoredAlike(d.parts, e.parts, a.fileId, name, a.data);
    JoinedAlike(d.parts[name := a.data], e.parts[name := a.data], a.fileId);
  }

  /** Texts with a common beginning: what starts with the longer one starts with the shorter. */
  lemma PrefixChain(p: string, f: string, g: string, q: string)
    requires StartsWith(p, f) && StartsWith(p, g) && |f| <= |g| && StartsWith(q, g)
    ensures StartsWith(q, f)
  {
    assert q[..|f|] == q[..|g|][..|f|] && p[..|f|] == p[..|g|][..|f|];
  }

  lemma NoCommonName(f: string, g: string, p: string)
    requires Apart(f, g) && StartsWith(p, f)
    ensures !StartsWith(p, g)
  {
    OwnName(f, 0);
    OwnName(g, 0);
    assert !StartsWith(PartName(g, 0), f) && !StartsWith(PartName(f, 0), g);
    if StartsWith(p, g) {
      PrefixChain(p, if |f| <= |g| then f else g, if |f| <= |g| then g else f,
                  if |f| <= |g| then PartName(g, 0) else PartName(f, 0));
    }
  }

  /** A chunk of another file leaves what is held of this one as it was. */
  lemma OtherChunk(d: Dirs, a: Arrival, fileId: string)
    requires Apart(fileId, a.fileId)
    ensures Alike(Take(d, a).0, d, fileId)
  {
    hide PartName, Concat, StartsWith, Apart;
    OwnName(a.fileId, a.index);
    forall p | StartsWith(p, fileId) ensures !StartsWith(p, a.fileId) {
      NoCommonName(fileId, a.fileId, p);
    }
    NamesStart(a.fileId, a.filename);
    forall x ensures StartsWith(fileId + "_" + x, fileId) {
      NamesStart(fileId, x);
    }
    assert Mine(Take(d, a).0.parts, fileId) == Mine(d.parts, fileId);
  }

  lemma NamesStart(fileId: string, x: string)
    ensures StartsWith(fileId + "_" + x, fileId)
  {
  }

  lemma AlikeTrans(d: Dirs, e: Dirs, f: Dirs, fileId: string)
    requires Alike(d, e, fileId) && Alike(e, f, fileId)
    ensures Alike(d, f, fileId)
  {
  }

  /** One more arrival, in the directories, the replies and the file's own chunks. */
  lemma Pushed(d: Dirs, arrivals: seq<Arrival>, a: Arrival, fileId: string)
    ensures After(d, arrivals + [a]) == Take(After(d, arrivals), a).0
    ensures Replies(d, arrivals + [a], fileId)
            == if a.fileId == fileId then Replies(d, arrivals, fileId) + [Take(After(d, arrivals), a).1]
               else Replies(d, arrivals, fileId)
    ensures Own(arrivals + [a], fileId)
            == if a.fileId == fileId then Own(arrivals, fileId) + [a] else Own(arrivals, fileId)
  {
    hide Take;
    assert (arrivals + [a])[..|arrivals|] == arrivals;
  }

  lemma NothingArrived(d: Dirs, fileId: string)
    ensures Own([], fileId) == [] && Alike(After(d, []), After(d, []), fileId)
  {
  }

  /** Chunks of other uploads do not matter: the file's own chunks get the same replies without
      them, and leave the same parts and the same stored file. */
  lemma {:induction false} OthersDoNotMatter(d: Dirs, arrivals: seq<Arrival>, fileId: string)
    requires OthersApart(arrivals, fileId)
    ensures Alike(After(d, arrivals), After(d, Own(arrivals, fileId)), fileId)
    ensures Replies(d, arrivals, fileId) == Replies(d, Own(arrivals, fileId), fileId)
    decreases |arrivals|
  {
    hide Take, Alike, Apart, After, Replies, Own;
    if arrivals == [] {
      NothingArrived(d, fileId);
    } else {
      var before, last := arrivals[..|arrivals| - 1], arrivals[|arrivals| - 1];
      var own := Own(before, fileId);
      OthersDoNotMatter(d, before, fileId);
      assert arrivals == before + [last];
      Pushed(d, before, last, fileId);
      if last.fileId == fileId {
        Pushed(d, own, last, fileId);
        OwnChunk(After(d, before), After(d, own), last);
      } else {
        OtherChunk(After(d, before), last, fileId);
        AlikeTrans(After(d, arrivals), After(d, before), After(d, own), fileId);
      }
    }
  }

  // ---- a whole upload among others ----------------------------------------------------------------

  /** The chunks of one file as arrivals. */
  function Sent(fileId: string, filename: string, chunks: seq<Bytes>, order: seq<nat>): (r: seq<Arrival>)
    requires InRange(order, |chunks|)
    ensures |r| == |order|
  {
    seq(|order|, k requires 0 <= k < |order| => Arrival(fileId, order[k], |chunks|, filename, chunks[order[k]]))
  }

  lemma {:induction false} SentIsDelivered(
    d: Dirs, fileId: string, filename: string, chunks: seq<Bytes>, order: seq<nat>)
    requires InRange(order, |chunks|)
    ensures After(d, Sent(fileId, filename, chunks, order)) == Deliver(d, fileId, filename, chunks, order).0
  {
    if order != [] {
      var n := |order| - 1;
      SentIsDelivered(d, fileId, filename, chunks, order[..n]);
      assert Sent(fileId, filename, chunks, order)[..n] == Sent(fileId, filename, chunks, order[..n]);
    }
  }

  /** Among any number of other uploads, when the last missing chunk of a file has arrived the file is
      stored with its chunks in index order and no part of it is left. */
  lemma {:induction false} CompletesAmongOthers(
    d: Dirs, arrivals: seq<Arrival>, fileId: string, filename: string, chunks: seq<Bytes>, order: seq<nat>)
    requires OthersApart(arrivals, fileId) && Clean(d, fileId) && 1 <= |chunks| <= 10000
    requires InRange(order, |chunks|) && Own(arrivals, fileId) == Sent(fileId, filename, chunks, order)
    requires order != [] && Covers(order, |chunks|) && !Covers(order[..|order| - 1], |chunks|)
    ensures var after := After(d, arrivals);
            && Clean(after, fileId) && fileId + "_" + filename in after.files
            && after.files[fileId + "_" + filename] == Flatten(chunks)
  {
    OthersDoNotMatter(d, arrivals, fileId);
    SentIsDelivered(d, fileId, filename, chunks, order);
    CompletesAtLastIndex(d, fileId, filename, chunks, order);
    var after := After(d, arrivals);
    forall p ensures p !in Mine(after.parts, fileId) {
      assert p in Mine(d.parts, fileId) <==> p in d.parts && StartsWith(p, fileId);
    }
  }
}
