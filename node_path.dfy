/** The POSIX flavour of Node's `path` module, as far as the upload code uses
    it: `basename`, `extname`, `basename(p, ext)` and `join` of a directory
    with one path segment. */
module NodePath {
  import opened Wrappers

  function StripTrailingSlashes(p: string): (r: string)
    ensures |r| <= |p| && r == p[..|r|]
    ensures r == [] || r[|r| - 1] != '/'
  {
    if p != [] && p[|p| - 1] == '/' then StripTrailingSlashes(p[..|p| - 1]) else p
  }

  /** The last position of `c` in `s` (`lastIndexOf`, None for -1). */
  function LastIndexOf(s: string, c: char): (r: Option<nat>)
    ensures r.None? <==> c !in s
    ensures r.Some? ==> r.value < |s| && s[r.value] == c && c !in s[r.value + 1..]
  {
    if s == [] then None
    else if s[|s| - 1] == c then Some(|s| - 1)
    else
      var r := LastIndexOf(s[..|s| - 1], c);
      assert r.Some? ==> s[r.value + 1..] == s[..|s| - 1][r.value + 1..] + [s[|s| - 1]];
      r
  }

  /** `path.basename(p)`: the last segment, trailing slashes ignored. */
  function Basename(p: string): (b: string)
    ensures '/' !in b
  {
    var q := StripTrailingSlashes(p);
    match LastIndexOf(q, '/')
    case None => q
    case Some(i) => q[i + 1..]
  }

  /** The extension of one path segment, following Node's scan: from the last
      '.' to the end, except that a segment without a '.', one whose only '.'
      is its first character, and the segment ".." have none. */
  function SegmentExt(b: string): string
  {
    match LastIndexOf(b, '.')
    case None => ""
    case Some(d) => if d == 0 || b == ".." then "" else b[d..]
  }

  /** `path.extname(p)`. */
  function ExtName(p: string): string
  {
    SegmentExt(Basename(p))
  }

  /** An extension is empty or a '.' with no further '.'; it is a proper
      suffix of the basename. */
  lemma ExtNameShape(p: string)
    ensures var e := ExtName(p);
      && (e == "" || (e[0] == '.' && '.' !in e[1..]))
      && '/' !in e
      && |e| <= |Basename(p)| && e == Basename(p)[|Basename(p)| - |e|..]
      && (e != Basename(p) || e == "")
  {
    var b := Basename(p);
    var e := SegmentExt(b);
    assert e != "" ==> e == b[|b| - |e|..] && e[1..] == b[|b| - |e| + 1..];
  }

  /** `path.basename(p, path.extname(p))`: the last segment without its extension. */
  function Stem(p: string): string
  {
    ExtNameShape(p);
    var b := Basename(p);
    b[..|b| - |ExtName(p)|]
  }

  /** The basename is the stem followed by the extension. */
  lemma StemSplit(p: string)
    ensures Basename(p) == Stem(p) + ExtName(p)
  {
    ExtNameShape(p);
    var b := Basename(p);
    var k := |b| - |ExtName(p)|;
    assert b == b[..k] + b[k..];
  }

  /** A directory path as the upload code writes its constants: absolute,
      without a trailing slash. */
  predicate IsAbsoluteDir(dir: string)
  {
    |dir| >= 2 && dir[0] == '/' && dir[|dir| - 1] != '/'
  }

  /** The directory above `dir`: what `..` resolves to. */
  function Parent(dir: string): string
    requires IsAbsoluteDir(dir)
  {
    match LastIndexOf(dir, '/')
    case None => "/"
    case Some(i) => if i == 0 then "/" else dir[..i]
  }

  /** `path.join(dir, seg)` for one segment `seg`: normalisation drops an
      empty segment and ".", and resolves ".." to the parent directory. */
  function JoinSegment(dir: string, seg: string): (r: string)
    requires IsAbsoluteDir(dir) && '/' !in seg
    ensures PlainSegment(seg) ==> r == dir + "/" + seg
  {
    if seg == "" || seg == "." then dir
    else if seg == ".." then Parent(dir)
    else dir + "/" + seg
  }

  /** A segment that names an entry inside a directory (not itself nor its parent). */
  predicate PlainSegment(seg: string)
  {
    seg != "" && seg != "." && seg != ".." && '/' !in seg
  }

  /** A name made of a dot-free, slash-free stem and an extension-shaped
      suffix is its own basename and has that suffix as its extension. */
  lemma {:induction false} ExtNameOfName(stem: string, ext: string)
    requires stem != "" && '.' !in stem && '/' !in stem
    requires ext == "" || (ext[0] == '.' && '.' !in ext[1..] && '/' !in ext)
    ensures Basename(stem + ext) == stem + ext
    ensures ExtName(stem + ext) == ext
  {
    var n := stem + ext;
    assert n[..|stem|] == stem;
    assert n[|stem|..] == ext;
    assert '/' !in n by {
      forall i | 0 <= i < |n| ensures n[i] != '/' {
        if i < |stem| { assert n[i] == stem[i]; } else { assert n[i] == ext[i - |stem|]; }
      }
    }
    assert n[|n| - 1] != '/';
    assert StripTrailingSlashes(n) == n;
    assert LastIndexOf(n, '/') == None;
    if ext == "" {
      assert n == stem;
      assert LastIndexOf(n, '.') == None;
    } else {
      assert n[|stem|] == '.';
      assert n[|stem| + 1..] == ext[1..];
      assert LastIndexOf(n, '.') == Some(|stem|);
      assert n[0] == stem[0];
    }
  }

  /** `basename` recovers the segment a path was built from. */
  lemma {:induction false} BasenameOfChild(dir: string, name: string)
    requires name != "" && '/' !in name
    ensures Basename(dir + "/" + name) == name
  {
    var p := dir + "/" + name;
    assert StripTrailingSlashes(p) == p;
    assert p[|dir|] == '/';
    assert p[|dir| + 1..] == name;
    assert LastIndexOf(p, '/') == Some(|dir|);
  }

  /** The stem is part of the basename, so it holds no '/'. */
  lemma StemNoSlash(p: string)
    ensures '/' !in Stem(p)
  {
    var b := Basename(p);
    var s := Stem(p);
    StemSplit(p);
    forall i | 0 <= i < |s| ensures s[i] != '/' {
      assert s[i] == b[i];
    }
  }

  /** Any non-empty slash-free stem followed by a proper extension (a '.' and
      at least one more character, no further '.') keeps that extension, even
      when the stem itself holds dots. */
  lemma {:induction false} ExtNameAfterStem(stem: string, ext: string)
    requires stem != "" && '/' !in stem
    requires |ext| >= 2 && ext[0] == '.' && '.' !in ext[1..] && '/' !in ext
    ensures Basename(stem + ext) == stem + ext
    ensures ExtName(stem + ext) == ext
  {
    var n := stem + ext;
    assert n[..|stem|] == stem;
    assert n[|stem|..] == ext;
    assert '/' !in n by {
      forall i | 0 <= i < |n| ensures n[i] != '/' {
        if i < |stem| { assert n[i] == stem[i]; } else { assert n[i] == ext[i - |stem|]; }
      }
    }
    assert n[|n| - 1] != '/';
    assert StripTrailingSlashes(n) == n;
    assert LastIndexOf(n, '/') == None;
    assert n[|stem|] == '.';
    assert n[|stem| + 1..] == ext[1..];
    assert LastIndexOf(n, '.') == Some(|stem|);
    assert |n| >= 3;
  }

  /** A plain slash-free name is its own basename. */
  lemma BasenameOfName(name: string)
    requires name != "" && '/' !in name
    ensures Basename(name) == name
  {
    assert name[|name| - 1] != '/';
    assert StripTrailingSlashes(name) == name;
    assert LastIndexOf(name, '/') == None;
  }

  /** A child of a directory has the extension of its own name. */
  lemma ExtNameOfChild(dir: string, name: string)
    requires name != "" && '/' !in name
    ensures ExtName(dir + "/" + name) == ExtName(name)
  {
    BasenameOfChild(dir, name);
    BasenameOfName(name);
  }
}
