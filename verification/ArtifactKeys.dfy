/** Storage keys and the paths they resolve to (server/internal/artifacts/filesystem.go).
    A path is the list of its segments below the store's root. */
module ArtifactKeys {
  import opened Strings
  import opened Wrappers

  type Path = seq<string>

  // ------------------------------------------------------------------- resolve

  /** filepath.Clean of a relative key without ".." segments, as its segments. */
  function Clean(segs: seq<string>): (p: Path)
    ensures forall seg <- p :: seg in segs && seg != "" && seg != "."
  {
    if segs == [] then []
    else (if segs[0] == "" || segs[0] == "." then [] else [segs[0]]) + Clean(segs[1..])
  }

  /** The path of a key, None when the key is refused. A first segment that merely starts with two dots
      is refused too: the escape check looks at the first two characters of the relative path. */
  function Resolve(key: string): Option<Path> {
    if key == [] || key[0] == '/' || key[0] == '\\' then None
    else if ".." in Split(key, '/') then None
    else
      var clean := Clean(Split(key, '/'));
      if clean == [] || ".." <= clean[0] then None else Some(clean)
  }

  method ResolveKey(key: string) returns (r: Option<Path>)
    ensures r == Resolve(key)
  {
    if key == [] {
      return None;
    }
    if key[0] == '/' || key[0] == '\\' {
      return None;
    }
    var segs := Split(key, '/');
    for i := 0 to |segs|
      invariant ".." !in segs[..i]
    {
      if segs[i] == ".." {
        return None;
      }
      assert segs[..i + 1] == segs[..i] + [segs[i]];
    }
    assert segs[..|segs|] == segs;
    var clean := Clean(segs);
    if clean == [] {
      return None;
    }
    if ".." <= clean[0] {
      return None;
    }
    return Some(clean);
  }

  predicate InCache(p: Path) {
    p != [] && p[0] == "cache"
  }

  predicate CacheKey(key: string) {
    "cache/" <= key
  }

  /** What a key resolves to: a place below the root, with plain segments only. */
  lemma ResolvesBelowRoot(key: string, p: Path)
    requires Resolve(key) == Some(p)
    ensures p != [] && forall seg <- p :: seg != "" && seg != "." && seg != ".." && '/' !in seg
  {
  }

  /** A key that starts with cache/ resolves to root/cache or below it. */
  lemma CacheKeysLandInCache(key: string, p: Path)
    requires CacheKey(key) && Resolve(key) == Some(p)
    ensures InCache(p)
  {
    var rest := key[6..];
    assert key == "cache" + (['/'] + rest);
    SplitFirst("cache", '/', rest);
    assert Clean(Split(key, '/')) == ["cache"] + Clean(Split(rest, '/'));
  }

  /** The key passes every check that keeps it inside the root: it names a place below it. */
  predicate NamesAPlaceBelowRoot(key: string) {
    && key != "" && key[0] != '/' && key[0] != '\\'
    && ".." !in Split(key, '/')
    && Clean(Split(key, '/')) != []
  }

  predicate Plain(seg: string) {
    seg != "" && seg != "."
  }

  /** The first plain segment starts with two dots. */
  predicate StartsWithTwoDots(segs: seq<string>) {
    exists k | 0 <= k < |segs| :: Plain(segs[k]) && ".." <= segs[k] && forall j | 0 <= j < k :: !Plain(segs[j])
  }

  lemma {:induction false} FirstPlain(segs: seq<string>) returns (k: nat)
    requires Clean(segs) != []
    ensures k < |segs| && segs[k] == Clean(segs)[0] && Plain(segs[k]) && forall j | 0 <= j < k :: !Plain(segs[j])
    decreases |segs|
  {
    if Plain(segs[0]) {
      k := 0;
    } else {
      var i := FirstPlain(segs[1..]);
      k := i + 1;
      forall j | 0 <= j < k ensures !Plain(segs[j]) {
        if j > 0 { assert !Plain(segs[1..][j - 1]); }
      }
    }
  }

  /** A key that names a place below the root is refused all the same exactly when its first plain segment
      starts with two dots. */
  lemma RefusedThoughInsideIff(key: string)
    requires NamesAPlaceBelowRoot(key)
    ensures Resolve(key).None? <==> StartsWithTwoDots(Split(key, '/'))
  {
    var segs := Split(key, '/');
    var k := FirstPlain(segs);
    if m :| 0 <= m < |segs| && Plain(segs[m]) && ".." <= segs[m] && forall j | 0 <= j < m :: !Plain(segs[j]) {
      assert m == k;
    }
  }

  /** For instance every file of the root whose name has two dots in front of something else. */
  lemma TwoDotsInFrontAreRefused(name: string)
    requires name != "" && '/' !in name
    ensures NamesAPlaceBelowRoot(".." + name) && Resolve(".." + name).None?
  {
    var key := ".." + name;
    assert key[0] == '.' && '/' !in key;
    SplitWhole(key, '/');
    assert Clean([key]) == [key] + Clean([key][1..]);
    assert key[..2] == "..";
  }

  lemma {:induction false} CleanIsIdentity(p: Path)
    requires forall seg <- p :: seg != "" && seg != "."
    ensures Clean(p) == p
    decreases |p|
  {
    if p != [] {
      assert p[0] in p && forall seg <- p[1..] :: seg in p;
      CleanIsIdentity(p[1..]);
    }
  }

  /** Resolving the printed path again changes nothing, unless it is refused for starting with a backslash (which
      the key had behind a leading dot segment). */
  lemma ResolveIsIdempotent(key: string, p: Path)
    requires Resolve(key) == Some(p)
    ensures p != [] && p[0] != [] && Resolve(Join(p, '/')) == if p[0][0] == '\\' then None else Some(p)
  {
    ResolvesBelowRoot(key, p);
    SplitJoin(p, '/');
    CleanIsIdentity(p);
    assert p[0] in p;
    assert p[0] <= Join(p, '/');
    assert Join(p, '/')[0] == p[0][0];
  }
}
