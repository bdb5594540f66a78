/** Interleaved uploads into the filesystem store: a temporary file per upload, published by an atomic
    rename under cache/ and by link-if-absent everywhere else (server/internal/artifacts). */
module ArtifactStore {
  import opened Wrappers
  import opened ArtifactKeys

  type Bytes = string

  datatype Response = Stored(n: nat) | Conflict | Refused | Failed

  /** Where one PUT request is. Its temporary file holds the first `copied` bytes of the body. */
  datatype Phase = Copying(copied: nat) | Closed | Comparing | Answered(response: Response)

  datatype Upload = Upload(key: string, body: Bytes, phase: Phase)

  datatype State = State(files: map<Path, Bytes>, uploads: seq<Upload>)

  const INIT := State(map[], [])

  datatype Event =
    | Begin(key: string, body: Bytes)  // the token is verified, the temporary file created
    | Copy(i: nat, n: nat)             // n more bytes of the body reach the temporary file
    | Close(i: nat)                    // the whole body is there
    | Publish(i: nat)                  // rename, or link
    | Compare(i: nat)                  // after EEXIST: compare with the file in the way
    | Break(i: nat)                    // any error: reader, disk, oversized body
    | Delete(key: string)

  /** What a call's comparison of two files sees: equal size and equal SHA-256. */
  type Digest = Bytes -> string

  ghost predicate CollisionFree(sha: Digest) {
    forall a, b | sha(a) == sha(b) :: a == b
  }

  predicate SameContent(sha: Digest, a: Bytes, b: Bytes) {
    |a| == |b| && sha(a) == sha(b)
  }

  function SetPhase(s: State, i: nat, p: Phase): State
    requires i < |s.uploads|
  {
    s.(uploads := s.uploads[i := s.uploads[i].(phase := p)])
  }

  function Step(sha: Digest, s: State, e: Event): Option<State> {
    match e
    case Begin(key, body) =>
      var phase := if Resolve(key).None? then Answered(Refused) else Copying(0);
      Some(s.(uploads := s.uploads + [Upload(key, body, phase)]))
    case Copy(i, n) =>
      if i < |s.uploads| && s.uploads[i].phase.Copying? && s.uploads[i].phase.copied + n <= |s.uploads[i].body|
      then Some(SetPhase(s, i, Copying(s.uploads[i].phase.copied + n))) else None
    case Close(i) =>
      if i < |s.uploads| && s.uploads[i].phase == Copying(|s.uploads[i].body|)
      then Some(SetPhase(s, i, Closed)) else None
    case Publish(i) =>
      if !(i < |s.uploads| && s.uploads[i].phase == Closed && Resolve(s.uploads[i].key).Some?) then None
      else
        var u, p := s.uploads[i], Resolve(s.uploads[i].key).value;
        if CacheKey(u.key) || p !in s.files
        then Some(SetPhase(s, i, Answered(Stored(|u.body|))).(files := s.files[p := u.body]))
        else Some(SetPhase(s, i, Comparing))
    case Compare(i) =>
      if !(i < |s.uploads| && s.uploads[i].phase == Comparing && Resolve(s.uploads[i].key).Some?) then None
      else
        var u, p := s.uploads[i], Resolve(s.uploads[i].key).value;
        if p !in s.files then Some(SetPhase(s, i, Answered(Failed)))
        else if SameContent(sha, u.body, s.files[p]) then Some(SetPhase(s, i, Answered(Stored(|u.body|))))
        else Some(SetPhase(s, i, Answered(Conflict)))
    case Break(i) =>
      if i < |s.uploads| && !s.uploads[i].phase.Answered? then Some(SetPhase(s, i, Answered(Failed))) else None
    case Delete(key) =>
      var p := Resolve(key);
      if p.None? then Some(s) else Some(s.(files := s.files - {p.value}))
  }

  function Exec(sha: Digest, s: State, es: seq<Event>): Option<State>
    decreases |es|
  {
    if es == [] then Some(s)
    else match Step(sha, s, es[0])
      case None => None
      case Some(next) => Exec(sha, next, es[1..])
  }

  predicate Deletes(e: Event, p: Path) {
    e.Delete? && Resolve(e.key) == Some(p)
  }

  predicate NeverDeleted(es: seq<Event>, p: Path) {
    forall e <- es :: !Deletes(e, p)
  }

  // ------------------------------------------------------------- write once

  lemma OutsideCacheStep(sha: Digest, s: State, e: Event, t: State, p: Path)
    requires Step(sha, s, e) == Some(t) && !InCache(p) && p in s.files && !Deletes(e, p)
    ensures p in t.files && t.files[p] == s.files[p]
  {
    if e.Publish? && CacheKey(s.uploads[e.i].key) {
      CacheKeysLandInCache(s.uploads[e.i].key, Resolve(s.uploads[e.i].key).value);
    }
  }

  /** Outside root/cache an object keeps its content for good, whatever uploads interleave; only a
      delete of its own path removes it. */
  lemma {:induction false} OutsideCacheNeverChanges(sha: Digest, s: State, es: seq<Event>, t: State, p: Path)
    requires Exec(sha, s, es) == Some(t) && !InCache(p) && p in s.files && NeverDeleted(es, p)
    ensures p in t.files && t.files[p] == s.files[p]
    decreases |es|
  {
    if es != [] {
      hide Step;
      var next := Step(sha, s, es[0]).value;
      assert es[0] in es && forall e <- es[1..] :: e in es;
      OutsideCacheStep(sha, s, es[0], next, p);
      OutsideCacheNeverChanges(sha, next, es[1..], t, p);
    }
  }

  /** A create-only upload that has just been answered with success finds its own bytes stored. */
  lemma SuccessMeansStored(sha: Digest, s: State, e: Event, t: State, i: nat)
    requires CollisionFree(sha) && Step(sha, s, e) == Some(t)
    requires i < |s.uploads| && !s.uploads[i].phase.Answered? && t.uploads[i].phase.Answered?
    requires t.uploads[i].phase.response.Stored?
    ensures var u := t.uploads[i];
            && u.phase.response == Stored(|u.body|)
            && Resolve(u.key).Some? && Resolve(u.key).value in t.files && t.files[Resolve(u.key).value] == u.body
  {
  }

  // ---------------------------------------------------------------- invariants

  /** The upload has been answered with success. */
  predicate Succeeded(u: Upload) {
    u.phase.Answered? && u.phase.response.Stored?
  }

  /** A successful create-only upload whose path was never deleted still has its bytes there. */
  ghost predicate Kept(s: State, p: Path) {
    forall i | 0 <= i < |s.uploads| && Succeeded(s.uploads[i]) && Resolve(s.uploads[i].key) == Some(p) ::
      p in s.files && s.files[p] == s.uploads[i].body
  }

  ghost predicate PublishedBy(s: State, p: Path, i: nat) {
    i < |s.uploads| && Succeeded(s.uploads[i]) && Resolve(s.uploads[i].key) == Some(p) && p in s.files
    && s.files[p] == s.uploads[i].body
  }

  /** Every file is the complete body of one successful upload of its own path. */
  ghost predicate Whole(s: State) {
    forall p <- s.files :: exists i: nat :: PublishedBy(s, p, i)
  }

  lemma StepKeepsKept(sha: Digest, s: State, e: Event, t: State, p: Path)
    requires CollisionFree(sha) && Step(sha, s, e) == Some(t)
    requires Kept(s, p) && !InCache(p) && !Deletes(e, p)
    ensures Kept(t, p)
  {
    forall i | 0 <= i < |t.uploads| && Succeeded(t.uploads[i]) && Resolve(t.uploads[i].key) == Some(p)
      ensures p in t.files && t.files[p] == t.uploads[i].body
    {
      if i < |s.uploads| {
        if Succeeded(s.uploads[i]) {
          OutsideCacheStep(sha, s, e, t, p);
        } else {
          SuccessMeansStored(sha, s, e, t, i);
        }
      }
    }
  }

  /** After a step a file is the one that was there, or the body just published. */
  lemma FileOrigin(sha: Digest, s: State, e: Event, t: State, p: Path)
    requires Step(sha, s, e) == Some(t) && p in t.files
    ensures (p in s.files && t.files[p] == s.files[p]) || (e.Publish? && PublishedBy(t, p, e.i))
  {
  }

  lemma SuccessStays(sha: Digest, s: State, e: Event, t: State, p: Path, i: nat)
    requires Step(sha, s, e) == Some(t) && PublishedBy(s, p, i) && p in t.files && t.files[p] == s.files[p]
    ensures PublishedBy(t, p, i)
  {
  }

  lemma StepKeepsWhole(sha: Digest, s: State, e: Event, t: State)
    requires Step(sha, s, e) == Some(t) && Whole(s)
    ensures Whole(t)
  {
    hide Step;
    hide PublishedBy;
    forall p <- t.files ensures exists i: nat :: PublishedBy(t, p, i) {
      FileOrigin(sha, s, e, t, p);
      if p in s.files && t.files[p] == s.files[p] {
        var i: nat :| PublishedBy(s, p, i);
        SuccessStays(sha, s, e, t, p, i);
      }
    }
  }

  lemma {:induction false} RunKeepsKept(sha: Digest, s: State, es: seq<Event>, t: State, p: Path)
    requires CollisionFree(sha) && Exec(sha, s, es) == Some(t)
    requires Kept(s, p) && !InCache(p) && NeverDeleted(es, p)
    ensures Kept(t, p)
    decreases |es|
  {
    if es != [] {
      hide Step;
      hide Kept;
      var next := Step(sha, s, es[0]).value;
      assert es[0] in es && forall e <- es[1..] :: e in es;
      StepKeepsKept(sha, s, es[0], next, p);
      RunKeepsKept(sha, next, es[1..], t, p);
    }
  }

  lemma {:induction false} RunKeepsWhole(sha: Digest, s: State, es: seq<Event>, t: State)
    requires Exec(sha, s, es) == Some(t) && Whole(s)
    ensures Whole(t)
    decreases |es|
  {
    if es != [] {
      hide Step;
      hide Whole;
      StepKeepsWhole(sha, s, es[0], Step(sha, s, es[0]).value);
      RunKeepsWhole(sha, Step(sha, s, es[0]).value, es[1..], t);
    }
  }

  /** Write once: over a whole run in which the path is never deleted, all successful uploads to a path
      outside root/cache carried the same bytes, and those bytes are what is stored at the end. */
  lemma WriteOnce(sha: Digest, es: seq<Event>, t: State, p: Path, i: nat, j: nat)
    requires CollisionFree(sha) && Exec(sha, INIT, es) == Some(t) && !InCache(p) && NeverDeleted(es, p)
    requires i < |t.uploads| && Succeeded(t.uploads[i]) && Resolve(t.uploads[i].key) == Some(p)
    requires j < |t.uploads| && Succeeded(t.uploads[j]) && Resolve(t.uploads[j].key) == Some(p)
    ensures t.uploads[i].body == t.uploads[j].body && p in t.files && t.files[p] == t.uploads[i].body
  {
    hide Exec;
    RunKeepsKept(sha, INIT, es, t, p);
  }

  /** No file is ever torn or mixed, in root/cache either. */
  lemma FilesAreWhole(sha: Digest, es: seq<Event>, t: State, p: Path)
    requires Exec(sha, INIT, es) == Some(t) && p in t.files
    ensures exists i: nat :: PublishedBy(t, p, i)
  {
    hide Exec;
    RunKeepsWhole(sha, INIT, es, t);
  }

  // ------------------------------------------------------------ one caller

  /** The answer to an upload that nothing interferes with: unless it may replace, a path that is taken only takes the
      same bytes again. */
  function AnswerOf(files: map<Path, Bytes>, key: string, body: Bytes, broken: bool, replace: bool): Response {
    if Resolve(key).None? then Refused
    else if broken then Failed
    else if !replace && Resolve(key).value in files && files[Resolve(key).value] != body then Conflict
    else Stored(|body|)
  }

  /** The steps of an upload from the beginning. */
  function Straight(i: nat, key: string, body: Bytes, taken: bool): seq<Event> {
    if Resolve(key).None? then [Begin(key, body)]
    else [Begin(key, body), Copy(i, |body|), Close(i), Publish(i)] + if taken then [Compare(i)] else []
  }

  lemma FirstStep(sha: Digest, s: State, es: seq<Event>, t: State)
    requires es != [] && Step(sha, s, es[0]) == Some(t)
    ensures Exec(sha, s, es) == Exec(sha, t, es[1..])
  {
  }

  /** From any state, whatever other uploads are under way, an upload that runs through without interference is
      answered as one caller would be, and stores its body exactly then. */
  lemma StraightUpload(sha: Digest, s: State, key: string, body: Bytes) returns (t: State)
    requires CollisionFree(sha)
    ensures var taken := Resolve(key).Some? && !CacheKey(key) && Resolve(key).value in s.files;
            Exec(sha, s, Straight(|s.uploads|, key, body, taken)) == Some(t)
    ensures var r := AnswerOf(s.files, key, body, false, CacheKey(key));
            && t.uploads == s.uploads + [Upload(key, body, Answered(r))]
            && t.files == if r.Stored? then s.files[Resolve(key).value := body] else s.files
  {
    hide Resolve;
    hide CacheKey;
    var i, taken := |s.uploads|, Resolve(key).Some? && !CacheKey(key) && Resolve(key).value in s.files;
    var es := Straight(i, key, body, taken);
    var s1 := Step(sha, s, es[0]).value;
    FirstStep(sha, s, es, s1);
    if Resolve(key).None? {
      t := s1;
    } else {
      var s2 := SetPhase(s1, i, Copying(|body|));
      var s3 := SetPhase(s2, i, Closed);
      var s4 := Step(sha, s3, Publish(i)).value;
      FirstStep(sha, s1, es[1..], s2);
      FirstStep(sha, s2, es[2..], s3);
      FirstStep(sha, s3, es[3..], s4);
      t := if taken then Step(sha, s4, Compare(i)).value else s4;
      if taken {
        FirstStep(sha, s4, es[4..], t);
        assert t.files[Resolve(key).value := s.files[Resolve(key).value]] == t.files;
      }
      assert t.uploads == s.uploads + [t.uploads[i]];
    }
  }

  /** The store as one caller at a time sees it. `broken` is an error of the reader or the disk. */
  class FilesystemStore {
    var files: map<Path, Bytes>

    constructor ()
      ensures files == map[]
    {
      files := map[];
    }

    /** Replaces whatever is there. */
    method Put(key: string, body: Bytes, broken: bool) returns (r: Response)
      modifies this
      ensures r == AnswerOf(old(files), key, body, broken, true)
      ensures files == if r.Stored? then old(files)[Resolve(key).value := body] else old(files)
    {
      var full := ResolveKey(key);
      if full.None? {
        return Refused;
      }
      if broken {
        return Failed;
      }
      files := files[full.value := body];
      return Stored(|body|);
    }

    /** Never replaces: the same bytes again are a success, different bytes a conflict. */
    method PutCreateOnly(key: string, body: Bytes, broken: bool, sha: Digest) returns (r: Response)
      requires CollisionFree(sha)
      modifies this
      ensures r == AnswerOf(old(files), key, body, broken, false)
      ensures files == if r.Stored? then old(files)[Resolve(key).value := body] else old(files)
      ensures forall p <- old(files) :: p in files && files[p] == old(files)[p]
    {
      var full := ResolveKey(key);
      if full.None? {
        return Refused;
      }
      if broken {
        return Failed;
      }
      if full.value in files {
        if SameContent(sha, body, files[full.value]) {
          assert files[full.value := body] == files;
          return Stored(|body|);
        }
        return Conflict;
      }
      files := files[full.value := body];
      return Stored(|body|);
    }

    /** handlePut: only keys under cache/ may replace, so nothing outside root/cache ever changes. */
    method HandlePut(key: string, body: Bytes, broken: bool, sha: Digest) returns (r: Response)
      requires CollisionFree(sha)
      modifies this
      ensures forall p <- old(files) | !InCache(p) :: p in files && files[p] == old(files)[p]
      ensures r == AnswerOf(old(files), key, body, broken, CacheKey(key))
      ensures files == if r.Stored? then old(files)[Resolve(key).value := body] else old(files)
    {
      if CacheKey(key) {
        r := Put(key, body, broken);
        if r.Stored? {
          CacheKeysLandInCache(key, Resolve(key).value);
        }
      } else {
        r := PutCreateOnly(key, body, broken, sha);
      }
    }

    method Delete(key: string) returns (ok: bool)
      modifies this
      ensures ok <==> Resolve(key).Some?
      ensures files == if ok then old(files) - {Resolve(key).value} else old(files)
    {
      var full := ResolveKey(key);
      if full.None? {
        return false;
      }
      files := files - {full.value};
      return true;
    }
  }
}
