/** The name an imported binary gets when it is copied into the app's storage. */
module DisplayName {
  import opened Common
  import opened Strings

  /** What `getFileName` asks of a `Uri`: `getScheme()` and `getPath()`, `None` for `null`. */
  datatype Uri = Uri(scheme: Option<string>, path: Option<string>)

  /** The fallback name: the part of `path` after its last '/', or all of it when it has none. */
  function Basename(path: string): (name: string)
    ensures '/' !in name
    ensures |name| <= |path| && name == path[|path| - |name|..]
    ensures |name| < |path| ==> path[|path| - |name| - 1] == '/'
  {
    var cut := LastIndexOf(path, '/');
    if cut != -1 then path[cut + 1..] else path
  }

  /** A path without '/' is its own name. */
  lemma BasenameWithoutSlash(path: string)
    requires '/' !in path
    ensures Basename(path) == path
  {
    assert LastIndexOf(path, '/') == -1;
  }

  /** No suffix of the path without '/' is longer than the name: the cut is at the last '/'. */
  lemma BasenameLongest(path: string, suffix: string)
    requires |suffix| <= |path| && suffix == path[|path| - |suffix|..] && '/' !in suffix
    ensures |suffix| <= |Basename(path)|
  {
    var cut := LastIndexOf(path, '/');
    assert cut >= 0 ==> path[cut] == '/';
    assert cut < |path| - |suffix|;
  }

  lemma BasenameIdempotent(path: string)
    ensures Basename(Basename(path)) == Basename(path)
  {
    BasenameWithoutSlash(Basename(path));
  }
}
