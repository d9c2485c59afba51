/** Folder identity: which directory under the base path belongs to a post.
    Candidates are the bare title, then `title-2`, `title-3`, ...; the first
    candidate that is absent is created with a `.post_id` marker holding the
    post's id, and an existing candidate whose stripped marker equals the id
    is reused. This module states that rule as functions on the file tree;
    `Downloader.Disk.GetUniqueFolder` runs it as the source's loop. */
module FolderIdentity {
  import opened Wrappers
  import opened PyStrings
  import opened FileSystem
  import opened Records

  /** The exceptions `get_unique_folder` lets escape: the marker exists but
      cannot be read as text, or `os.makedirs` cannot create the folder (the
      empty path, or a file where a path with a trailing `/` wants a
      directory). */
  datatype FsError = UnreadableMarker(path: string) | NotCreatable(path: string)

  const MarkerName: string := ".post_id"

  /** The folder name tried on the `count`-th iteration. */
  function CandidateName(title: string, count: nat): string
    requires count >= 1
  {
    if count == 1 then title else title + "-" + Dec(count)
  }

  function CandidatePath(base: string, title: string, count: nat): string
    requires count >= 1
  {
    Join(base, CandidateName(title, count))
  }

  function MarkerPath(folder: string): string {
    Join(folder, MarkerName)
  }

  /** What one iteration finds at a candidate folder: nothing there, a marker
      naming this post, something else (no marker, or another id), a marker
      that is not a text file (reading it raises), or nothing there and no
      way to create it. */
  datatype Probe = Vacant | Owned | Foreign | Unreadable | Blocked

  /** The marker path never ends in `/`, so `os.path.exists` of it is a
      plain lookup. */
  function ProbeAt(fs: FileTree, folder: string, id: PostId): Probe {
    if !PathExists(fs, folder) then
      (if folder != [] && Unslashed(folder) !in fs then Vacant else Blocked)
    else if MarkerPath(folder) !in fs then Foreign
    else match fs[MarkerPath(folder)]
      case Text(t) => if Strip(t) == Str(id) then Owned else Foreign
      case _ => Unreadable
  }

  /** The probe as the loop reads it: the folder exists, then the marker
      exists, then its stripped text is compared with the id. */
  lemma ProbeSteps(fs: FileTree, folder: string, id: PostId)
    ensures !PathExists(fs, folder) ==>
              ProbeAt(fs, folder, id) == (if folder != [] && Unslashed(folder) !in fs then Vacant else Blocked)
    ensures PathExists(fs, folder) && MarkerPath(folder) !in fs ==> ProbeAt(fs, folder, id) == Foreign
    ensures PathExists(fs, folder) && MarkerPath(folder) in fs && !fs[MarkerPath(folder)].Text? ==>
              ProbeAt(fs, folder, id) == Unreadable
    ensures PathExists(fs, folder) && MarkerPath(folder) in fs && fs[MarkerPath(folder)].Text? ==>
              ProbeAt(fs, folder, id) == (if Strip(fs[MarkerPath(folder)].text) == Str(id) then Owned else Foreign)
  {
  }

  /** The loop leaves at the `k`-th candidate. */
  predicate Stops(fs: FileTree, base: string, title: string, id: PostId, k: nat) {
    k >= 1 && ProbeAt(fs, CandidatePath(base, title, k), id) != Foreign
  }

  /** The loop has passed over every candidate before the `count`-th. */
  predicate Passed(fs: FileTree, base: string, title: string, id: PostId, count: nat) {
    forall j :: 1 <= j < count ==> ProbeAt(fs, CandidatePath(base, title, j), id) == Foreign
  }

  /** Passing over the `count`-th candidate as well. */
  lemma PassedOneMore(fs: FileTree, base: string, title: string, id: PostId, count: nat)
    requires count >= 1 && Passed(fs, base, title, id, count)
    requires ProbeAt(fs, CandidatePath(base, title, count), id) == Foreign
    ensures Passed(fs, base, title, id, count + 1)
  {
  }

  /** The loop leaves at the `k`-th candidate and at no earlier one. */
  predicate FirstStop(fs: FileTree, base: string, title: string, id: PostId, k: nat) {
    Stops(fs, base, title, id, k) && Passed(fs, base, title, id, k)
  }

  /** Only one candidate can be the first to stop the loop. */
  lemma FirstStopUnique(fs: FileTree, base: string, title: string, id: PostId, k1: nat, k2: nat)
    requires FirstStop(fs, base, title, id, k1) && FirstStop(fs, base, title, id, k2)
    ensures k1 == k2
  {
  }

  /** The result and the new file tree when the loop leaves at candidate `k`. */
  function ResolveAt(fs: FileTree, base: string, title: string, id: PostId, k: nat)
    : (res: (Result<string, FsError>, FileTree))
    requires Stops(fs, base, title, id, k)
    ensures var c := CandidatePath(base, title, k);
      && (res.0.Ok? <==> ProbeAt(fs, c, id) in {Vacant, Owned})
      && (res.0.Ok? ==> res.0.value == c)
      && (ProbeAt(fs, c, id) == Blocked ==> res.0 == Err(NotCreatable(c)))
      && (ProbeAt(fs, c, id) != Vacant ==> res.1 == fs)
      && (ProbeAt(fs, c, id) == Vacant ==>
            Unslashed(c) in res.1 && res.1[Unslashed(c)] == Dir && PathExists(res.1, c)
            && MarkerPath(c) in res.1 && res.1[MarkerPath(c)] == Text(Str(id)))
      && forall p :: p != Unslashed(c) && p != MarkerPath(c) ==>
            (p in res.1 <==> p in fs) && (p in fs ==> res.1[p] == fs[p])
  {
    var c := CandidatePath(base, title, k);
    match ProbeAt(fs, c, id)
    case Vacant => (Ok(c), fs[Unslashed(c) := Dir][MarkerPath(c) := Text(Str(id))])
    case Owned => (Ok(c), fs)
    case Unreadable => (Err(UnreadableMarker(MarkerPath(c))), fs)
    case Blocked => (Err(NotCreatable(c)), fs)
  }

  /** With a canonical id, the folder resolved is owned by the post afterwards. */
  lemma ResolveClaims(fs: FileTree, base: string, title: string, id: PostId, k: nat)
    requires Stops(fs, base, title, id, k) && Canonical(id)
    requires ResolveAt(fs, base, title, id, k).0.Ok?
    ensures ProbeAt(ResolveAt(fs, base, title, id, k).1, CandidatePath(base, title, k), id) == Owned
  {
    var c := CandidatePath(base, title, k);
    var fs1 := ResolveAt(fs, base, title, id, k).1;
    if ProbeAt(fs, c, id) == Vacant {
      assert PathExists(fs1, c) && MarkerPath(c) in fs1 && fs1[MarkerPath(c)] == Text(Str(id));
      StripTrimmed(Str(id));
    } else {
      assert fs1 == fs;
    }
  }

  // ---- the candidates are pairwise apart ----

  /** What `Join` puts in front of every candidate name: the same for all of them. */
  function CandidatePrefix(base: string, title: string): string {
    if IsAbsolute(title) then ""
    else if base == [] || base[|base| - 1] == '/' then base
    else base + "/"
  }

  lemma CandidateSplit(base: string, title: string, k: nat)
    requires k >= 1
    ensures CandidatePath(base, title, k) == CandidatePrefix(base, title) + CandidateName(title, k)
  {
    var name := CandidateName(title, k);
    if k >= 2 {
      assert name[0] == if title == [] then '-' else title[0];
    }
    assert IsAbsolute(name) <==> IsAbsolute(title);
  }

  lemma {:induction false} CandidateNamesApart(title: string, j: nat, k: nat)
    requires 1 <= j && 1 <= k && j != k
    ensures CandidateName(title, j) != CandidateName(title, k)
  {
    if j >= 2 && k >= 2 {
      var a, b := CandidateName(title, j), CandidateName(title, k);
      assert a[|title| + 1..] == Dec(j);
      assert b[|title| + 1..] == Dec(k);
      DecInjective(j, k);
    }
  }

  /** A marker path is its folder, perhaps a `/`, and `.post_id`. */
  lemma MarkerShape(x: string)
    ensures var m := MarkerPath(x); |x| + 8 <= |m| <= |x| + 9 && m[|m| - 1] == 'd'
    ensures x != [] && x[|x| - 1] != '/' ==> MarkerPath(x) == x + "/" + MarkerName
  {
  }

  /** A numbered candidate ends in a digit and is longer than the bare title's. */
  lemma NumberedCandidate(base: string, title: string, k: nat)
    requires k >= 2
    ensures var c := CandidatePath(base, title, k);
      |c| >= |CandidatePath(base, title, 1)| + 2 && IsDigit(c[|c| - 1])
  {
    CandidateSplit(base, title, k);
    CandidateSplit(base, title, 1);
    var c, d := CandidatePath(base, title, k), Dec(k);
    assert c[|c| - 1] == d[|d| - 1];
  }

  lemma CandidatePathsApart(base: string, title: string, j: nat, k: nat)
    requires 1 <= j && 1 <= k && j != k
    ensures CandidatePath(base, title, j) != CandidatePath(base, title, k)
  {
    var pre := CandidatePrefix(base, title);
    CandidateSplit(base, title, j);
    CandidateSplit(base, title, k);
    CandidateNamesApart(title, j, k);
    var cj, ck := CandidatePath(base, title, j), CandidatePath(base, title, k);
    assert cj[|pre|..] == CandidateName(title, j);
    assert ck[|pre|..] == CandidateName(title, k);
  }

  /** A numbered candidate is the entry it names: it ends in a digit, not in `/`. */
  lemma NumberedUnslashed(base: string, title: string, k: nat)
    requires k >= 2
    ensures Unslashed(CandidatePath(base, title, k)) == CandidatePath(base, title, k)
  {
    NumberedCandidate(base, title, k);
  }

  /** Different counts name different entries; only the bare title can carry
      a trailing `/` (when it is empty), and it is shorter than the rest. */
  lemma EntriesApart(base: string, title: string, j: nat, k: nat)
    requires 1 <= j && 1 <= k && j != k
    ensures Unslashed(CandidatePath(base, title, j)) != Unslashed(CandidatePath(base, title, k))
  {
    if j >= 2 && k >= 2 {
      NumberedUnslashed(base, title, j);
      NumberedUnslashed(base, title, k);
      CandidatePathsApart(base, title, j, k);
    } else {
      var n := if j == 1 then k else j;
      NumberedCandidate(base, title, n);
      NumberedUnslashed(base, title, n);
    }
  }

  /** No candidate's marker is the entry another candidate names. */
  lemma MarkerNotCandidate(base: string, title: string, j: nat, k: nat)
    requires 1 <= j && 1 <= k && j != k
    ensures MarkerPath(CandidatePath(base, title, j)) != Unslashed(CandidatePath(base, title, k))
  {
    MarkerShape(CandidatePath(base, title, j));
    if k >= 2 {
      NumberedCandidate(base, title, k);
      NumberedUnslashed(base, title, k);
    } else {
      NumberedCandidate(base, title, j);
    }
  }

  lemma MarkersApart(base: string, title: string, j: nat, k: nat)
    requires 1 <= j && 1 <= k && j != k
    ensures MarkerPath(CandidatePath(base, title, j)) != MarkerPath(CandidatePath(base, title, k))
  {
    var cj, ck := CandidatePath(base, title, j), CandidatePath(base, title, k);
    if j >= 2 && k >= 2 {
      NumberedCandidate(base, title, j);
      NumberedCandidate(base, title, k);
      CandidatePathsApart(base, title, j, k);
      MarkerInjective(cj, ck);
    } else {
      MarkerShape(cj);
      MarkerShape(ck);
      NumberedCandidate(base, title, if j == 1 then k else j);
    }
  }

  /** Folders not ending in `/` have different markers when they differ. */
  lemma MarkerInjective(x: string, y: string)
    requires x != [] && y != [] && x[|x| - 1] != '/' && y[|y| - 1] != '/'
    ensures MarkerPath(x) == MarkerPath(y) ==> x == y
  {
    MarkerShape(x);
    MarkerShape(y);
    if MarkerPath(x) == MarkerPath(y) {
      assert (x + "/" + MarkerName)[..|x|] == x;
      assert (y + "/" + MarkerName)[..|y|] == y;
    }
  }

  /** Two different counts give different folders naming different entries,
      and no folder's entry is another candidate's marker or shares its
      marker. */
  lemma CandidatesApart(base: string, title: string, j: nat, k: nat)
    requires 1 <= j && 1 <= k && j != k
    ensures CandidatePath(base, title, j) != CandidatePath(base, title, k)
    ensures Unslashed(CandidatePath(base, title, j)) != Unslashed(CandidatePath(base, title, k))
    ensures MarkerPath(CandidatePath(base, title, j)) != Unslashed(CandidatePath(base, title, k))
    ensures MarkerPath(CandidatePath(base, title, j)) != MarkerPath(CandidatePath(base, title, k))
  {
    CandidatePathsApart(base, title, j, k);
    EntriesApart(base, title, j, k);
    MarkerNotCandidate(base, title, j, k);
    MarkersApart(base, title, j, k);
  }

  /** The entries of the candidates the loop has passed over before trying
      the `count`-th one. */
  ghost function Tried(base: string, title: string, count: nat): set<string>
    requires count >= 1
  {
    if count == 1 then {} else Tried(base, title, count - 1) + {Unslashed(CandidatePath(base, title, count - 1))}
  }

  /** A later candidate was not among those passed over. */
  lemma {:induction false} TriedExcludes(base: string, title: string, count: nat, k: nat)
    requires 1 <= count <= k
    ensures Unslashed(CandidatePath(base, title, k)) !in Tried(base, title, count)
  {
    if count > 1 {
      TriedExcludes(base, title, count - 1, k);
      CandidatesApart(base, title, count - 1, k);
    }
  }

  /** The candidates passed over all exist: each was found but foreign. */
  lemma {:induction false} TriedExist(fs: FileTree, base: string, title: string, id: PostId, count: nat)
    requires count >= 1
    requires Passed(fs, base, title, id, count)
    ensures Tried(base, title, count) <= fs.Keys
  {
    if count > 1 {
      TriedExist(fs, base, title, id, count - 1);
    }
  }

  /** Passing over one more existing candidate leaves fewer existing paths
      untried: the loop cannot go on longer than the tree has paths. */
  lemma TriedShrinks(fs: FileTree, base: string, title: string, id: PostId, count: nat)
    requires count >= 1
    requires Passed(fs, base, title, id, count)
    requires ProbeAt(fs, CandidatePath(base, title, count), id) == Foreign
    ensures |fs.Keys - Tried(base, title, count + 1)| < |fs.Keys - Tried(base, title, count)|
  {
    var c := Unslashed(CandidatePath(base, title, count));
    TriedExcludes(base, title, count, count);
    TriedExist(fs, base, title, id, count);
    assert c in fs.Keys - Tried(base, title, count);
    assert fs.Keys - Tried(base, title, count + 1) == (fs.Keys - Tried(base, title, count)) - {c};
  }

  /** The bare title is the first candidate and no candidate carries the
      suffix `-1`. */
  lemma CandidateNeverMinusOne(title: string, k: nat)
    requires k >= 1
    ensures CandidateName(title, 1) == title
    ensures CandidateName(title, k) != title + "-1"
  {
    if k >= 2 {
      assert CandidateName(title, k)[|title| + 1..] == Dec(k);
      assert (title + "-1")[|title| + 1..] == "1" == Dec(1);
      DecInjective(k, 1);
    }
  }

  // ---- idempotence and disambiguation ----

  /** A resolution at candidate `k` leaves what any other candidate probes
      as, for any post, unchanged. */
  lemma ResolveKeepsOthers(fs: FileTree, base: string, title: string, id: PostId, k: nat, j: nat, other: PostId)
    requires Stops(fs, base, title, id, k) && 1 <= j && j != k
    ensures ProbeAt(ResolveAt(fs, base, title, id, k).1, CandidatePath(base, title, j), other)
         == ProbeAt(fs, CandidatePath(base, title, j), other)
  {
    var cj := CandidatePath(base, title, j);
    var ej := Unslashed(cj);
    var fs1 := ResolveAt(fs, base, title, id, k).1;
    CandidatesApart(base, title, j, k);
    CandidatesApart(base, title, k, j);
    assert (ej in fs1 <==> ej in fs) && (ej in fs ==> fs1[ej] == fs[ej]);
    assert (MarkerPath(cj) in fs1 <==> MarkerPath(cj) in fs)
        && (MarkerPath(cj) in fs ==> fs1[MarkerPath(cj)] == fs[MarkerPath(cj)]);
    ProbeReadsTwoPaths(fs, fs1, cj, other);
  }

  /** A probe looks only at the folder's entry and at its marker. */
  lemma ProbeReadsTwoPaths(fs: FileTree, fs1: FileTree, folder: string, id: PostId)
    requires var e := Unslashed(folder);
      (e in fs1 <==> e in fs) && (e in fs ==> fs1[e] == fs[e])
    requires var m := MarkerPath(folder);
      (m in fs1 <==> m in fs) && (m in fs ==> fs1[m] == fs[m])
    ensures ProbeAt(fs1, folder, id) == ProbeAt(fs, folder, id)
  {
    assert PathExists(fs1, folder) == PathExists(fs, folder);
  }

  /** Resolving again after a successful resolution stops at the same
      candidate, returns the same folder and changes nothing. */
  lemma {:induction false} ResolveIdempotent(fs: FileTree, base: string, title: string, id: PostId, k: nat)
    requires FirstStop(fs, base, title, id, k)
    requires ResolveAt(fs, base, title, id, k).0.Ok?
    requires Canonical(id)
    ensures var res := ResolveAt(fs, base, title, id, k);
      && FirstStop(res.1, base, title, id, k)
      && ResolveAt(res.1, base, title, id, k) == res
  {
    var res := ResolveAt(fs, base, title, id, k);
    ResolveClaims(fs, base, title, id, k);
    forall j | 1 <= j < k
      ensures ProbeAt(res.1, CandidatePath(base, title, j), id) == Foreign
    {
      ResolveKeepsOthers(fs, base, title, id, k, j, id);
    }
  }

  /** Two posts with the same title and different ids, resolved one after the
      other, end up in two different candidate folders, each claimed by its
      own id. */
  lemma {:induction false} ResolveSeparatesIds(
    fs: FileTree, base: string, title: string, a: PostId, b: PostId, ka: nat, kb: nat)
    requires Canonical(a) && Canonical(b) && Str(a) != Str(b)
    requires FirstStop(fs, base, title, a, ka) && ResolveAt(fs, base, title, a, ka).0.Ok?
    requires FirstStop(ResolveAt(fs, base, title, a, ka).1, base, title, b, kb)
    requires ResolveAt(ResolveAt(fs, base, title, a, ka).1, base, title, b, kb).0.Ok?
    ensures ka != kb
    ensures CandidatePath(base, title, ka) != CandidatePath(base, title, kb)
    ensures var fs2 := ResolveAt(ResolveAt(fs, base, title, a, ka).1, base, title, b, kb).1;
      && ProbeAt(fs2, CandidatePath(base, title, ka), a) == Owned
      && ProbeAt(fs2, CandidatePath(base, title, kb), b) == Owned
  {
    var fs1 := ResolveAt(fs, base, title, a, ka).1;
    ResolveClaims(fs, base, title, a, ka);
    OwnedForeignToOthers(fs1, CandidatePath(base, title, ka), a, b);
    ResolveClaims(fs1, base, title, b, kb);
    ResolveKeepsOthers(fs1, base, title, b, kb, ka, a);
  }

  /** A folder owned by one canonical id is foreign to an id that prints differently. */
  lemma OwnedForeignToOthers(fs: FileTree, folder: string, a: PostId, b: PostId)
    requires Canonical(a) && Str(a) != Str(b) && ProbeAt(fs, folder, a) == Owned
    ensures ProbeAt(fs, folder, b) == Foreign
  {
    var t := fs[MarkerPath(folder)].text;
    assert Strip(t) == Str(a);
  }

  /** An id that `strip()` changes is written as is but compared after
      stripping, so the folder a resolution creates is foreign to the same
      post afterwards: the next resolution passes over it and every earlier
      candidate, and never returns it. */
  lemma {:induction false} PaddedIdMovesOn(fs: FileTree, base: string, title: string, id: PostId, k: nat)
    requires FirstStop(fs, base, title, id, k) && ProbeAt(fs, CandidatePath(base, title, k), id) == Vacant
    requires !Canonical(id)
    ensures var fs1 := ResolveAt(fs, base, title, id, k).1;
      forall j :: 1 <= j <= k ==> ProbeAt(fs1, CandidatePath(base, title, j), id) == Foreign
  {
    var fs1 := ResolveAt(fs, base, title, id, k).1;
    var c := CandidatePath(base, title, k);
    PaddedMarkerForeign(fs1, c, id);
    forall j | 1 <= j < k
      ensures ProbeAt(fs1, CandidatePath(base, title, j), id) == Foreign
    {
      ResolveKeepsOthers(fs, base, title, id, k, j, id);
    }
  }

  /** A marker holding `str(post_id)` of a non-canonical id does not name
      that post. */
  lemma PaddedMarkerForeign(fs: FileTree, folder: string, id: PostId)
    requires PathExists(fs, folder) && MarkerPath(folder) in fs && fs[MarkerPath(folder)] == Text(Str(id))
    requires !Canonical(id)
    ensures ProbeAt(fs, folder, id) == Foreign
  {
    StripTrims(Str(id));
  }

  /** The smallest instance: the id `" 7"` in an empty tree gets `out/t` on
      the first run and `out/t-2` on the second. */
  lemma PaddedIdNotIdempotent()
    ensures var id := TextId(" 7");
      var res := ResolveAt(map[], "out", "t", id, 1);
      && FirstStop(map[], "out", "t", id, 1)
      && res.1 == map["out/t" := Dir, "out/t/.post_id" := Text(" 7")]
      && !Stops(res.1, "out", "t", id, 1)
      && FirstStop(res.1, "out", "t", id, 2)
  {
    var id := TextId(" 7");
    PaddedPaths();
    PaddedStrip();
    assert Str(id)[0] == ' ';
    PaddedIdMovesOn(map[], "out", "t", id, 1);
    var fs1 := ResolveAt(map[], "out", "t", id, 1).1;
    assert fs1 == map["out/t" := Dir, "out/t/.post_id" := Text(" 7")];
    assert "out/t-2" !in fs1;
  }

  /** The paths of the first two candidates under `out` for the title `t`. */
  lemma PaddedPaths()
    ensures CandidatePath("out", "t", 1) == "out/t"
    ensures MarkerPath("out/t") == "out/t/.post_id"
    ensures CandidatePath("out", "t", 2) == "out/t-2"
  {
    assert Dec(2) == "2";
  }

  lemma PaddedStrip()
    ensures Strip(" 7") == "7"
  {
    assert " 7"[1..] == "7";
    assert LStrip(" 7") == "7";
  }

  /** An empty title makes the first candidate the base with a trailing
      `/`. It exists as soon as the base directory does, so, without a
      marker of this post in the base, the loop passes over it and creates
      `base/-2`. */
  lemma EmptyTitleSkipsBase()
    ensures var id := TextId("7");
      var fs := map["out" := Dir];
      && CandidatePath("out", "", 1) == "out/"
      && ProbeAt(fs, "out/", id) == Foreign
      && FirstStop(fs, "out", "", id, 2)
      && ResolveAt(fs, "out", "", id, 2)
         == (Ok("out/-2"), map["out" := Dir, "out/-2" := Dir, "out/-2/.post_id" := Text("7")])
  {
    var fs := map["out" := Dir];
    assert Unslashed("out/") == "out";
    assert MarkerPath("out/") == "out/.post_id";
    assert Dec(2) == "2";
    assert CandidatePath("out", "", 2) == "out/-2";
    assert MarkerPath("out/-2") == "out/-2/.post_id";
  }
}
