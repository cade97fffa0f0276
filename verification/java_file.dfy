/** The part of `java.io.File` the browser relies on, for the Unix file
    system: the constructor's path normalisation, `getParent()`, and
    `getAbsolutePath()` against the process's working directory. */
module JavaFile {
  import opened Wrappers
  import opened Text

  /** Begins with the separator. */
  predicate IsAbsolute(s: string) {
    |s| > 0 && s[0] == '/'
  }

  /** No separator is directly followed by another. */
  predicate NoDoubleSlash(s: string) {
    forall i :: 0 < i < |s| ==> !(s[i - 1] == '/' && s[i] == '/')
  }

  /** Drops every '/' that directly follows another. */
  function Collapse(s: string): (r: string)
    ensures |r| <= |s|
    ensures NoDoubleSlash(r)
    ensures |s| > 0 ==> |r| > 0 && r[0] == s[0] && r[|r| - 1] == s[|s| - 1]
    ensures |s| == 0 ==> r == []
    decreases |s|
  {
    if |s| <= 1 then s
    else if s[0] == '/' && s[1] == '/' then Collapse(s[1..])
    else
      var tail := Collapse(s[1..]);
      assert forall i :: 1 < i < |[s[0]] + tail| ==> ([s[0]] + tail)[i] == tail[i - 1];
      [s[0]] + tail
  }

  /** A path without doubled separators is left alone. */
  lemma {:induction false} CollapseKeeps(s: string)
    requires NoDoubleSlash(s)
    ensures Collapse(s) == s
    decreases |s|
  {
    if |s| > 1 {
      assert !(s[0] == '/' && s[1] == '/');
      assert NoDoubleSlash(s[1..]) by {
        forall i | 0 < i < |s[1..]| ensures !(s[1..][i - 1] == '/' && s[1..][i] == '/') {
          assert s[1..][i - 1] == s[i] && s[1..][i] == s[i + 1];
        }
      }
      CollapseKeeps(s[1..]);
      assert s == [s[0]] + s[1..];
    }
  }

  /** `UnixFileSystem.normalize`, which `File(path)` applies: every run of
      separators becomes one and a trailing separator is dropped, except
      that a path of separators only becomes "/". */
  function Normalize(s: string): (r: string)
    ensures NoDoubleSlash(r)
    ensures |r| > 1 ==> r[|r| - 1] != '/'
    ensures |r| == 0 <==> |s| == 0
    ensures IsAbsolute(r) <==> IsAbsolute(s)
  {
    var c := Collapse(s);
    if |c| > 1 && c[|c| - 1] == '/' then
      assert c[|c| - 2] != '/';
      c[..|c| - 1]
    else c
  }

  /** The normal form is a fixed point. */
  lemma NormalizeIdempotent(s: string)
    ensures Normalize(Normalize(s)) == Normalize(s)
  {
    CollapseKeeps(Normalize(s));
  }

  /** `File.getParent()` of a file whose (normalised) path is `path`: the
      text before the last separator; for a path whose only separator is
      the leading one, "/" unless the path is "/" itself; nothing for a
      relative path without a separator. */
  function GetParent(path: string): (r: Option<string>)
    ensures r.Some? ==> StartsWith(path, r.value) && |r.value| < |path|
    ensures r.None? <==> path == "/" || (!IsAbsolute(path) && '/' !in path)
  {
    var index := LastIndexOf(path, '/');
    var prefixLength := if IsAbsolute(path) then 1 else 0;
    if index < prefixLength then
      if prefixLength > 0 && |path| > prefixLength then Some(path[..prefixLength]) else None
    else Some(path[..index])
  }

  /** `UnixFileSystem.resolve(parent, child)`. */
  function Resolve(parent: string, child: string): string {
    if |child| == 0 then parent
    else if child[0] == '/' then (if parent == "/" then child else parent + child)
    else if parent == "/" then parent + child
    else parent + "/" + child
  }

  /** `File(path).absolutePath`, with `userDir` the `user.dir` property. */
  function AbsolutePath(userDir: string, path: string): (r: string)
    ensures IsAbsolute(path) ==> r == Normalize(path)
  {
    var p := Normalize(path);
    if IsAbsolute(p) then p else Resolve(userDir, p)
  }

  /** `File(path).parentFile?.absolutePath`. */
  function ParentFile(userDir: string, path: string): Option<string> {
    match GetParent(Normalize(path))
    case None => None
    case Some(q) => Some(AbsolutePath(userDir, q))
  }

  /** For an absolute path, there is a parent unless the path denotes "/",
      and the parent is an absolute, already normal, proper prefix of the
      normalised path: going to the parent always moves up. */
  lemma ParentOfAbsolute(userDir: string, path: string)
    requires IsAbsolute(path)
    ensures ParentFile(userDir, path).Some? <==> Normalize(path) != "/"
    ensures ParentFile(userDir, path).Some? ==>
      var q := ParentFile(userDir, path).value;
      && IsAbsolute(q) && Normalize(q) == q
      && StartsWith(Normalize(path), q) && |q| < |Normalize(path)|
  {
    var n := Normalize(path);
    var index := LastIndexOf(n, '/');
    assert index >= 0;
    if index == 0 {
      if |n| > 1 {
        assert n[..1] == "/";
        assert GetParent(n) == Some("/");
        assert Collapse("/") == "/";
      }
    } else {
      var q := n[..index];
      assert GetParent(n) == Some(q);
      assert n[index] == '/' && n[index - 1] != '/';
      assert NoDoubleSlash(q) by {
        forall i | 0 < i < |q| ensures !(q[i - 1] == '/' && q[i] == '/') {
          assert q[i - 1] == n[i - 1] && q[i] == n[i];
        }
      }
      CollapseKeeps(q);
      assert IsAbsolute(q);
    }
  }
}
