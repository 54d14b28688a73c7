/** The parts of Python's `posixpath` the bot relies on: `join`, `basename` and `splitext`. */
module PyPath {

  /** Index of the last `c` in `s`, or -1: `s.rfind(c)`. */
  function LastIndexOf(s: string, c: char): (r: int)
    ensures -1 <= r < |s|
    ensures r >= 0 ==> s[r] == c
    ensures forall i | r < i < |s| :: s[i] != c
  {
    if s == [] then -1
    else if s[|s| - 1] == c then |s| - 1
    else LastIndexOf(s[..|s| - 1], c)
  }

  /** `os.path.join(a, b)`: an absolute `b` replaces `a`; otherwise one `/` goes between them. */
  function Join(a: string, b: string): string
  {
    if b != [] && b[0] == '/' then b
    else if a == [] || a[|a| - 1] == '/' then a + b
    else a + "/" + b
  }

  /** `os.path.basename(p)`: what follows the last `/`. */
  function Basename(p: string): (r: string)
    ensures '/' !in r
    ensures r == p[LastIndexOf(p, '/') + 1..]
  {
    p[LastIndexOf(p, '/') + 1..]
  }

  /**
   * The extension `os.path.splitext(p)[1]`: from the last `.` of the last path
   * component on, unless everything in that component before the dot is a dot
   * (so `.gitkeep` and `..x` have no extension).
   */
  function Extension(p: string): (r: string)
    ensures r == [] || (|r| <= |p| && r == p[|p| - |r|..] && r[0] == '.' && '.' !in r[1..] && '/' !in r)
  {
    var slash := LastIndexOf(p, '/');
    var dot := LastIndexOf(p, '.');
    if dot > slash && exists i | slash < i < dot :: p[i] != '.' then p[dot..] else ""
  }

  /** Characters without `c` after the last `c` do not move it. */
  lemma {:induction false} LastIndexOfNotIn(x: string, y: string, c: char)
    requires c !in y
    ensures LastIndexOf(x + y, c) == LastIndexOf(x, c)
    decreases |y|
  {
    if y == [] {
      assert x + y == x;
    } else {
      assert (x + y)[|x + y| - 1] == y[|y| - 1];
      assert y[|y| - 1] in y;
      assert (x + y)[..|x + y| - 1] == x + y[..|y| - 1];
      LastIndexOfNotIn(x, y[..|y| - 1], c);
    }
  }

  /** In `pre + stem + ext`, the last dot is the one that starts `ext`. */
  lemma DotOfName(pre: string, stem: string, ext: string)
    requires |ext| >= 1 && ext[0] == '.' && '.' !in ext[1..]
    ensures LastIndexOf(pre + stem + ext, '.') == |pre| + |stem|
  {
    var e := ext[1..];
    assert pre + stem + ext == (pre + stem + ".") + e;
    LastIndexOfNotIn(pre + stem + ".", e, '.');
  }

  /** In `pre + stem + ext`, with no slash after `pre`, the last slash is the last character of `pre`, if any. */
  lemma SlashOfName(pre: string, stem: string, ext: string)
    requires pre == [] || pre[|pre| - 1] == '/'
    requires '/' !in stem && '/' !in ext
    ensures LastIndexOf(pre + stem + ext, '/') == |pre| - 1
  {
    assert '/' !in stem + ext;
    assert pre + stem + ext == pre + (stem + ext);
    LastIndexOfNotIn(pre, stem + ext, '/');
  }

  /**
   * The extension of `pre + stem + ext`, where `pre` is empty or ends in a
   * slash, the stem is not all dots and `ext` is a dot followed by neither dots
   * nor slashes, is `ext`.
   */
  lemma ExtensionOfName(pre: string, stem: string, ext: string)
    requires pre == [] || pre[|pre| - 1] == '/'
    requires '/' !in stem && exists i | 0 <= i < |stem| :: stem[i] != '.'
    requires |ext| >= 1 && ext[0] == '.' && '.' !in ext[1..] && '/' !in ext
    ensures Extension(pre + stem + ext) == ext
  {
    var p := pre + stem + ext;
    DotOfName(pre, stem, ext);
    SlashOfName(pre, stem, ext);
    var dot := |pre| + |stem|;
    var i :| 0 <= i < |stem| && stem[i] != '.';
    assert p[|pre| + i] == stem[i];
    assert p[dot..] == ext;
  }

  /** Joining onto a directory without a trailing slash puts one slash in between. */
  lemma JoinPlain(a: string, b: string)
    requires a != [] && a[|a| - 1] != '/'
    requires b == [] || b[0] != '/'
    ensures Join(a, b) == a + "/" + b
  {
  }

  /** `os.path.join(dir, name)` for a relative name is `dir`, a slash if needed, then `name`. */
  lemma JoinRelative(dir: string, name: string) returns (pre: string)
    requires name != [] && name[0] != '/'
    ensures pre == [] || pre[|pre| - 1] == '/'
    ensures Join(dir, name) == pre + name
  {
    if dir == [] || dir[|dir| - 1] == '/' {
      pre := dir;
    } else {
      pre := dir + "/";
    }
  }

  lemma ExtensionOfJoin(dir: string, stem: string, ext: string)
    requires '/' !in stem && exists i | 0 <= i < |stem| :: stem[i] != '.'
    requires |ext| >= 1 && ext[0] == '.' && '.' !in ext[1..] && '/' !in ext
    ensures Extension(Join(dir, stem + ext)) == ext
  {
    var name := stem + ext;
    assert name[0] != '/' by { assert name[0] == stem[0] && stem[0] in stem; }
    var pre := JoinRelative(dir, name);
    assert Join(dir, name) == pre + stem + ext;
    ExtensionOfName(pre, stem, ext);
  }

  lemma BasenameOfFree(y: string)
    requires '/' !in y
    ensures Basename(y) == y
  {
  }

  lemma BasenameAfterSlash(x: string, y: string)
    requires '/' !in y
    ensures Basename(x + "/" + y) == y
  {
    var p := x + "/" + y;
    assert p[|x|] == '/';
    assert forall i | |x| < i < |p| :: p[i] == y[i - |x| - 1];
    assert p[|x| + 1..] == y;
  }

  /** Joining a directory with a base name keeps that base name. */
  lemma BasenameOfJoin(dir: string, name: string)
    requires '/' !in name
    ensures Basename(Join(dir, name)) == name
  {
    if dir == [] {
      assert Join(dir, name) == name;
    } else if dir[|dir| - 1] == '/' {
      var p := dir + name;
      assert dir[..|dir| - 1] + "/" + name == p;
      BasenameAfterSlash(dir[..|dir| - 1], name);
    } else {
      BasenameAfterSlash(dir, name);
    }
  }
}
