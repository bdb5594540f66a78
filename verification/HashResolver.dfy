/** The hash function of cache-key templates, computed on the agent's disk and inside a job pod
    (agent/internal/runner/cachekey_expand.go, cachekey_pod_resolver.go). */
module HashResolver {
  import opened Wrappers
  import opened CappedBuffers
  import opened Sorting
  import opened Strings
  import opened Sequences

  const MAX_FILES := 100
  const MAX_BYTES_PER_FILE := 16 * 1024 * 1024
  const MAX_BYTES_TOTAL := 64 * 1024 * 1024
  const OUTPUT_LENGTH := 12

  datatype HashError =
    | NoWorkspace | Unlisted | NoMatch | TooManyFiles
    | Unresolved(rel: string) | Escapes(rel: string) | NotRegular(rel: string) | ReadFailed(rel: string)
    | FileTooBig(rel: string) | TotalTooBig(rel: string)

  // ------------------------------------------------------------------ sorting

  lemma LessOrders(dom: seq<string>)
    ensures Orders(Less, dom)
  {
    forall x <- dom, y <- dom ensures (x != y ==> Less(x, y) || Less(y, x)) && !(Less(x, y) && Less(y, x)) {
      LessIsTotal(x, y);
    }
    forall x <- dom, y <- dom, z <- dom | Less(x, y) && Less(y, z) ensures Less(x, z) {
      LessIsTransitive(x, y, z);
    }
  }

  /** sort.Strings */
  function SortStrings(xs: seq<string>): seq<string> {
    Sort(xs, Less)
  }

  // -------------------------------------------------------- the digest's input

  /** What is fed to the digest: path and content of each file, each closed by a newline. */
  function Records(rels: seq<string>, content: string -> Bytes): Bytes {
    if rels == [] then ""
    else
      var rel := rels[|rels| - 1];
      Records(rels[..|rels| - 1], content) + (rel + "\n") + content(rel) + "\n"
  }

  function Total(rels: seq<string>, content: string -> Bytes): nat {
    if rels == [] then 0 else Total(rels[..|rels| - 1], content) + |content(rels[|rels| - 1])|
  }

  predicate WithinLimits(rels: seq<string>, content: string -> Bytes) {
    && 1 <= |rels| <= MAX_FILES
    && (forall k | 0 <= k < |rels| :: |content(rels[k])| <= MAX_BYTES_PER_FILE)
    && Total(rels, content) <= MAX_BYTES_TOTAL
  }

  /** SHA-256 in hexadecimal, as an unknown function. */
  type Digest = Bytes -> string

  ghost predicate IsDigest(sha: Digest) {
    forall b :: |sha(b)| == 64
  }

  /** The key both resolvers must compute for the files `rels`. */
  function Key(rels: seq<string>, content: string -> Bytes, sha: Digest): string
    requires |sha(Records(SortStrings(rels), content))| == 64
  {
    sha(Records(SortStrings(rels), content))[..OUTPUT_LENGTH]
  }

  class Hasher {
    var fed: Bytes

    constructor ()
      ensures fed == ""
    {
      fed := "";
    }

    method Write(b: Bytes)
      modifies this
      ensures fed == old(fed) + b
    {
      fed := fed + b;
    }
  }

  lemma {:induction false} PrefixIsShorter(ws: seq<Bytes>, i: nat)
    requires i <= |ws|
    ensures |Concat(ws[..i])| <= |Concat(ws)|
    decreases |ws| - i
  {
    if i < |ws| {
      PrefixIsShorter(ws, i + 1);
      assert ws[..i + 1][..i] == ws[..i];
    } else {
      assert ws[..i] == ws;
    }
  }

  lemma {:induction false} PrefixTotalIsSmaller(rels: seq<string>, content: string -> Bytes, i: nat)
    requires i <= |rels|
    ensures Total(rels[..i], content) <= Total(rels, content)
    decreases |rels| - i
  {
    if i < |rels| {
      PrefixTotalIsSmaller(rels, content, i + 1);
      assert rels[..i + 1][..i] == rels[..i];
    } else {
      assert rels[..i] == rels;
    }
  }

  /** The digest has been fed the first `i` files, which are within the limits. */
  ghost predicate FedUpTo(order: seq<string>, i: nat, content: string -> Bytes, fed: Bytes, total: nat)
    requires i <= |order|
  {
    && fed == Records(order[..i], content)
    && total == Total(order[..i], content) <= MAX_BYTES_TOTAL
    && (forall k | 0 <= k < i :: |content(order[k])| <= MAX_BYTES_PER_FILE)
  }

  /** One more file is fed, or the whole input is refused. */
  lemma FeedFile(order: seq<string>, i: nat, content: string -> Bytes, fed: Bytes, total: nat)
    requires i < |order| && FedUpTo(order, i, content, fed, total)
    ensures var body := content(order[i]);
            if |body| <= MAX_BYTES_PER_FILE && total + |body| <= MAX_BYTES_TOTAL then
              FedUpTo(order, i + 1, content, fed + (order[i] + "\n") + body + "\n", total + |body|)
            else !WithinLimits(order, content)
  {
    assert order[..i + 1][..i] == order[..i];
    PrefixTotalIsSmaller(order, content, i + 1);
  }

  lemma NothingFed(order: seq<string>, content: string -> Bytes)
    ensures FedUpTo(order, 0, content, "", 0)
  {
  }

  lemma AllFed(order: seq<string>, content: string -> Bytes, fed: Bytes, total: nat)
    requires FedUpTo(order, |order|, content, fed, total)
    ensures fed == Records(order, content)
    ensures 1 <= |order| <= MAX_FILES ==> WithinLimits(order, content)
  {
    assert order[..|order|] == order;
  }

  lemma RelativePath(workDir: string, rel: string)
    ensures var path := workDir + "/" + rel;
            path[|workDir| + 1..] == rel && TrimPrefix(TrimPrefix(path, workDir), "/") == rel
  {
    var path := workDir + "/" + rel;
    assert workDir <= path && path[|workDir|..] == "/" + rel;
    assert ("/" + rel)[1..] == rel;
  }

  function TrimPrefix(s: string, prefix: string): string {
    if prefix <= s then s[|prefix|..] else s
  }

  // ------------------------------------------------------- on the agent's disk

  /** What the host finds at a path: where it leads once every symlink is followed, whether it is a regular file
      itself, the chunks it is read in, and whether reading breaks off (a failed read or a cancelled job). */
  datatype File = File(target: Option<seq<string>>, regular: bool, chunks: seq<Bytes>, broken: bool)

  /** The file may be hashed: a regular file below the real work directory that can be read to its end. */
  predicate Hashable(root: seq<string>, f: File) {
    f.target.Some? && root <= f.target.value && f.regular && !f.broken
  }

  /** Streams one file, in whatever chunks it is read, stopping at either cap. */
  method StreamHash(h: Hasher, chunks: seq<Bytes>, broken: bool, rel: string, perFileCap: nat, remainingTotalCap: nat)
    returns (r: Result<nat, HashError>)
    modifies h
    ensures r.Ok? <==> !broken && |Concat(chunks)| <= perFileCap && |Concat(chunks)| <= remainingTotalCap
    ensures r.Err? ==> r.error in {ReadFailed(rel), FileTooBig(rel), TotalTooBig(rel)}
    ensures r.Ok? ==> r.value == |Concat(chunks)| && h.fed == old(h.fed) + Concat(chunks)
  {
    var read := 0;
    for i := 0 to |chunks|
      invariant read == |Concat(chunks[..i])| && read <= perFileCap && read <= remainingTotalCap
      invariant h.fed == old(h.fed) + Concat(chunks[..i])
    {
      var n := |chunks[i]|;
      assert chunks[..i + 1][..i] == chunks[..i];
      PrefixIsShorter(chunks, i + 1);
      if n > 0 {
        read := read + n;
        if read > perFileCap {
          return Err(FileTooBig(rel));
        }
        if read > remainingTotalCap {
          return Err(TotalTooBig(rel));
        }
        h.Write(chunks[i]);
      } else {
        assert chunks[i] == "";
      }
    }
    assert chunks[..|chunks|] == chunks;
    if broken {
      return Err(ReadFailed(rel));
    }
    return Ok(read);
  }

  /** The absolute paths of the files under a work directory. */
  function Under(workDir: string, rels: seq<string>): (paths: seq<string>)
    ensures |paths| == |rels| && forall k | 0 <= k < |rels| :: paths[k] == workDir + "/" + rels[k]
  {
    seq(|rels|, k requires 0 <= k < |rels| => workDir + "/" + rels[k])
  }

  lemma {:induction false} InsertUnder(workDir: string, x: string, rels: seq<string>)
    ensures Insert(workDir + "/" + x, Under(workDir, rels), Less) == Under(workDir, Insert(x, rels, Less))
    decreases |rels|
  {
    if rels != [] {
      LessUnderPrefix(workDir + "/", x, rels[0]);
      if !Less(x, rels[0]) {
        InsertUnder(workDir, x, rels[1..]);
        assert Under(workDir, rels)[1..] == Under(workDir, rels[1..]);
      }
    }
  }

  /** Sorting full paths is sorting relative paths, whatever the work directory. */
  lemma {:induction false} SortUnder(workDir: string, rels: seq<string>)
    ensures SortStrings(Under(workDir, rels)) == Under(workDir, SortStrings(rels))
    decreases |rels|
  {
    if rels != [] {
      SortUnder(workDir, rels[1..]);
      assert Under(workDir, rels)[1..] == Under(workDir, rels[1..]);
      InsertUnder(workDir, rels[0], SortStrings(rels[1..]));
    }
  }

  /** The files of `rels` have these contents on the disk or in the pod. */
  ghost predicate Holds(workDir: string, rels: seq<string>, content: string -> Bytes, chunks: string -> seq<Bytes>) {
    forall rel <- rels :: Concat(chunks(workDir + "/" + rel)) == content(rel)
  }

  function ChunksOf(disk: string -> File): string -> seq<Bytes> {
    path => disk(path).chunks
  }

  /** An error of one file rather than of the whole call. */
  predicate IsFileError(e: HashError) {
    !e.NoWorkspace? && !e.Unlisted? && !e.NoMatch? && !e.TooManyFiles?
  }

  /** Feeds the sorted files one after the other. */
  method FeedHostFiles(h: Hasher, workDir: string, root: seq<string>, sorted: seq<string>, disk: string -> File,
                       ghost order: seq<string>, ghost content: string -> Bytes)
    returns (r: Result<nat, HashError>)
    requires sorted == Under(workDir, order) && Holds(workDir, order, content, ChunksOf(disk)) && h.fed == ""
    requires 1 <= |order| <= MAX_FILES
    modifies h
    ensures r.Ok? <==> WithinLimits(order, content) && forall rel <- order :: Hashable(root, disk(workDir + "/" + rel))
    ensures r.Ok? ==> h.fed == Records(order, content)
    ensures r.Err? ==> IsFileError(r.error)
  {
    hide WithinLimits;
    hide FedUpTo;
    hide Records;
    var totalBytes := 0;
    NothingFed(order, content);
    for i := 0 to |sorted|
      invariant 0 <= totalBytes <= MAX_BYTES_TOTAL && FedUpTo(order, i, content, h.fed, totalBytes)
      invariant forall k | 0 <= k < i :: Hashable(root, disk(workDir + "/" + order[k]))
    {
      var rel := sorted[i][|workDir| + 1..];
      RelativePath(workDir, order[i]);
      assert order[i] in order;
      var file := disk(sorted[i]);
      if file.target.None? {
        return Err(Unresolved(rel));
      }
      if !(root <= file.target.value) {
        return Err(Escapes(rel));
      }
      if !file.regular {
        return Err(NotRegular(rel));
      }
      FeedFile(order, i, content, h.fed, totalBytes);
      h.Write(rel + "\n");
      var read := StreamHash(h, file.chunks, file.broken, rel, MAX_BYTES_PER_FILE, MAX_BYTES_TOTAL - totalBytes);
      if read.Err? {
        return Err(read.error);
      }
      totalBytes := totalBytes + read.value;
      h.Write("\n");
    }
    AllFed(order, content, h.fed, totalBytes);
    return Ok(totalBytes);
  }

  /** The sorted files are the same files. */
  lemma SortedFiles(rels: seq<string>)
    requires NoDup(rels)
    ensures |SortStrings(rels)| == |rels| && forall rel :: rel in SortStrings(rels) <==> rel in rels
  {
    LessOrders(rels);
    SortSorts(rels, Less, rels);
  }

  /** workspaceHashResolver.Hash over the glob's matches, in any order and read in any chunks. `root` is the work
      directory with its symlinks resolved. */
  method HostHash(workDir: string, root: Option<seq<string>>, matches: seq<string>, disk: string -> File, sha: Digest,
                  ghost rels: seq<string>, ghost content: string -> Bytes)
    returns (r: Result<string, HashError>)
    requires matches == Under(workDir, rels) && NoDup(rels)
    requires Holds(workDir, rels, content, ChunksOf(disk)) && IsDigest(sha)
    ensures r.Ok? <==> root.Some? && WithinLimits(SortStrings(rels), content)
                       && forall rel <- rels :: Hashable(root.value, disk(workDir + "/" + rel))
    ensures r == Err(NoMatch) <==> rels == []
    ensures r == Err(TooManyFiles) <==> |rels| > MAX_FILES
    ensures r == Err(NoWorkspace) <==> 1 <= |rels| <= MAX_FILES && root.None?
    ensures r.Ok? ==> r.value == Key(rels, content, sha)
  {
    SortedFiles(rels);
    if |matches| == 0 {
      return Err(NoMatch);
    }
    if |matches| > MAX_FILES {
      return Err(TooManyFiles);
    }
    SortUnder(workDir, rels);
    hide SortStrings;
    hide WithinLimits;
    var sorted := SortStrings(matches);
    if root.None? {
      return Err(NoWorkspace);
    }
    var hasher := new Hasher();
    var fed := FeedHostFiles(hasher, workDir, root.value, sorted, disk, SortStrings(rels), content);
    if fed.Err? {
      return Err(fed.error);
    }
    return Ok(sha(hasher.fed)[..OUTPUT_LENGTH]);
  }

  // --------------------------------------------------------------- inside a pod

  /** cat in the container, through a buffer one byte larger than the cap. */
  method ReadFile(chunks: seq<Bytes>) returns (body: Bytes)
    ensures body == Take(Concat(chunks), MAX_BYTES_PER_FILE + 1)
  {
    var stdout := new CappedBuffer(MAX_BYTES_PER_FILE + 1);
    for i := 0 to |chunks|
      invariant stdout.Valid() && stdout.written == chunks[..i] && stdout.max == MAX_BYTES_PER_FILE + 1
      invariant fresh(stdout)
    {
      var n := stdout.Write(chunks[i]);
      assert chunks[..i + 1] == chunks[..i] + [chunks[i]];
    }
    assert chunks[..|chunks|] == chunks;
    return stdout.w;
  }

  /** Reads one file and feeds it to the digest; the result is the new running total. */
  method FeedPodFile(h: Hasher, chunks: seq<Bytes>, fails: bool, rel: string, totalBytes: nat)
    returns (r: Result<nat, HashError>)
    modifies h
    ensures r.Ok? <==> !fails && |Concat(chunks)| <= MAX_BYTES_PER_FILE && totalBytes + |Concat(chunks)| <= MAX_BYTES_TOTAL
    ensures r.Err? ==> r.error in {ReadFailed(rel), FileTooBig(rel), TotalTooBig(rel)}
    ensures r.Ok? ==> r.value == totalBytes + |Concat(chunks)|
                      && h.fed == old(h.fed) + (rel + "\n") + Concat(chunks) + "\n"
  {
    var body := ReadFile(chunks);
    if fails {
      return Err(ReadFailed(rel));
    }
    if |body| > MAX_BYTES_PER_FILE {
      return Err(FileTooBig(rel));
    }
    if totalBytes + |body| > MAX_BYTES_TOTAL {
      return Err(TotalTooBig(rel));
    }
    h.Write(rel + "\n");
    h.Write(body);
    h.Write("\n");
    return Ok(totalBytes + |body|);
  }

  /** Feeds the sorted files one after the other. */
  method FeedPodFiles(h: Hasher, workDir: string, sorted: seq<string>, chunks: string -> seq<Bytes>, fails: string -> bool,
                      ghost order: seq<string>, ghost content: string -> Bytes)
    returns (r: Result<nat, HashError>)
    requires sorted == Under(workDir, order) && Holds(workDir, order, content, chunks) && h.fed == ""
    requires 1 <= |order| <= MAX_FILES
    modifies h
    ensures r.Ok? <==> WithinLimits(order, content) && forall rel <- order :: !fails(workDir + "/" + rel)
    ensures r.Ok? ==> h.fed == Records(order, content)
    ensures r.Err? ==> IsFileError(r.error)
  {
    hide WithinLimits;
    hide FedUpTo;
    hide Records;
    hide TrimPrefix;
    var totalBytes := 0;
    NothingFed(order, content);
    for i := 0 to |sorted|
      invariant 0 <= totalBytes <= MAX_BYTES_TOTAL && FedUpTo(order, i, content, h.fed, totalBytes)
      invariant forall k | 0 <= k < i :: !fails(workDir + "/" + order[k])
    {
      var rel := TrimPrefix(TrimPrefix(sorted[i], workDir), "/");
      RelativePath(workDir, order[i]);
      assert order[i] in order;
      FeedFile(order, i, content, h.fed, totalBytes);
      var read := FeedPodFile(h, chunks(sorted[i]), fails(sorted[i]), rel, totalBytes);
      if read.Err? {
        return Err(read.error);
      }
      totalBytes := read.value;
    }
    AllFed(order, content, h.fed, totalBytes);
    return Ok(totalBytes);
  }

  /** podHashResolver.Hash over the listing's matches, in any order and delivered in any chunks. `matches` is None
      when the pod cannot be listed; `fails` are the files for which cat fails or the job is cancelled. */
  method PodHash(workDir: string, matches: Option<seq<string>>, chunks: string -> seq<Bytes>, fails: string -> bool, sha: Digest,
                 ghost rels: seq<string>, ghost content: string -> Bytes)
    returns (r: Result<string, HashError>)
    requires (matches.Some? ==> matches.value == Under(workDir, rels)) && NoDup(rels)
    requires Holds(workDir, rels, content, chunks) && IsDigest(sha)
    ensures r.Ok? <==> matches.Some? && WithinLimits(SortStrings(rels), content)
                       && forall rel <- rels :: !fails(workDir + "/" + rel)
    ensures r == Err(Unlisted) <==> matches.None?
    ensures r == Err(NoMatch) <==> matches.Some? && rels == []
    ensures r == Err(TooManyFiles) <==> matches.Some? && |rels| > MAX_FILES
    ensures r.Ok? ==> r.value == Key(rels, content, sha)
  {
    SortedFiles(rels);
    if matches.None? {
      return Err(Unlisted);
    }
    if |matches.value| == 0 {
      return Err(NoMatch);
    }
    if |matches.value| > MAX_FILES {
      return Err(TooManyFiles);
    }
    SortUnder(workDir, rels);
    hide SortStrings;
    hide WithinLimits;
    var sorted := SortStrings(matches.value);
    var hasher := new Hasher();
    var fed := FeedPodFiles(hasher, workDir, sorted, chunks, fails, SortStrings(rels), content);
    if fed.Err? {
      return Err(fed.error);
    }
    return Ok(sha(hasher.fed)[..OUTPUT_LENGTH]);
  }

  /** The two resolvers accept the same inputs and compute the same key: for the same files in any
      order, any work directories, any read or write chunks and any digest. */
  lemma HostAndPodAgree(hostRels: seq<string>, podRels: seq<string>, content: string -> Bytes, sha: Digest)
    requires NoDup(hostRels) && NoDup(podRels) && forall rel :: rel in hostRels <==> rel in podRels
    requires IsDigest(sha)
    ensures WithinLimits(SortStrings(hostRels), content) <==> WithinLimits(SortStrings(podRels), content)
    ensures Key(hostRels, content, sha) == Key(podRels, content, sha)
  {
    LessOrders(hostRels);
    SortSorts(hostRels, Less, hostRels);
    SortSorts(podRels, Less, hostRels);
    AscendingIsUnique(SortStrings(hostRels), SortStrings(podRels), Less, hostRels);
  }
}
