/** The two POSIX path operations the pipeline relies on: `os.path.join`
    (two components) and `os.path.splitext`. */
module Paths {

  /** `os.path.join(dir, name)`: an absolute `name` replaces `dir`;
      otherwise a `/` is inserted unless `dir` is empty or already ends in one. */
  function Join(dir: string, name: string): (r: string)
    ensures EndsWith(r, name)
    ensures (name == [] || name[0] != '/') ==> |dir| <= |r| && r[..|dir|] == dir
  {
    if name != [] && name[0] == '/' then name
    else if dir == [] || dir[|dir| - 1] == '/' then dir + name
    else dir + "/" + name
  }

  /** An entry of a directory listing, with what the media reader reports
      about that file. */
  datatype Entry<M> = Entry(name: string, meta: M)

  /** `[os.path.join(dir, f) for f in os.listdir(dir) if f.endswith(suffix)]`
      over a listing given in order, each path kept with its entry's data. */
  function WithSuffix<M>(dir: string, listing: seq<Entry<M>>, suffix: string): (r: seq<Entry<M>>)
    ensures |r| <= |listing|
    ensures forall f :: f in listing && EndsWith(f.name, suffix) ==> f.(name := Join(dir, f.name)) in r
    ensures forall g :: g in r ==> exists f :: f in listing && EndsWith(f.name, suffix) && g == f.(name := Join(dir, f.name))
  {
    if listing == [] then []
    else
      var rest := WithSuffix(dir, listing[1..], suffix);
      var f := listing[0];
      if EndsWith(f.name, suffix) then [f.(name := Join(dir, f.name))] + rest else rest
  }

  /** The filter works entry by entry and keeps listing order: filtering a
      listing in two parts gives the two filtered parts one after the other. */
  lemma {:induction false} WithSuffixAppend<M>(dir: string, a: seq<Entry<M>>, b: seq<Entry<M>>, suffix: string)
    ensures WithSuffix(dir, a + b, suffix) == WithSuffix(dir, a, suffix) + WithSuffix(dir, b, suffix)
    decreases |a|
  {
    if a == [] {
      assert a + b == b;
    } else {
      var f := a[0];
      var head := if EndsWith(f.name, suffix) then [f.(name := Join(dir, f.name))] else [];
      assert (a + b)[0] == f && (a + b)[1..] == a[1..] + b;
      WithSuffixAppend(dir, a[1..], b, suffix);
      assert WithSuffix(dir, a, suffix) == head + WithSuffix(dir, a[1..], suffix);
      assert WithSuffix(dir, a + b, suffix) == head + WithSuffix(dir, a[1..] + b, suffix);
      ConcatAssoc(head, WithSuffix(dir, a[1..], suffix), WithSuffix(dir, b, suffix));
    }
  }

  lemma ConcatAssoc<T>(x: seq<T>, y: seq<T>, z: seq<T>)
    ensures x + (y + z) == (x + y) + z
  {
  }

  lemma WithSuffixOne<M>(dir: string, f: Entry<M>, suffix: string)
    ensures WithSuffix(dir, [f], suffix) == if EndsWith(f.name, suffix) then [f.(name := Join(dir, f.name))] else []
  {
    assert [f][1..] == [];
  }

  /** Every path the filter keeps ends with the suffix it filtered on. */
  lemma WithSuffixEndsWith<M>(dir: string, listing: seq<Entry<M>>, suffix: string)
    ensures forall g :: g in WithSuffix(dir, listing, suffix) ==> EndsWith(g.name, suffix)
  {
    forall g | g in WithSuffix(dir, listing, suffix)
      ensures EndsWith(g.name, suffix)
    {
      var f :| f in listing && EndsWith(f.name, suffix) && g == f.(name := Join(dir, f.name));
      JoinKeepsSuffix(dir, f.name, suffix);
    }
  }

  /** A joined path ends with the suffix its file name ends with. */
  lemma JoinKeepsSuffix(dir: string, name: string, suffix: string)
    requires EndsWith(name, suffix)
    ensures EndsWith(Join(dir, name), suffix)
  {
    var r := Join(dir, name);
    assert r[|r| - |suffix|..] == r[|r| - |name|..][|name| - |suffix|..];
  }

  /** The per-title layout of every artifact, `<dir>/<safe>/<safe><ext>`,
      where `safe` is the sanitised title. */
  function ArtifactPath(dir: string, safe: string, ext: string): (r: string)
    ensures EndsWith(r, safe + ext)
  {
    Join(Join(dir, safe), safe + ext)
  }

  /** The directory part `Join` puts in front of a relative name. */
  function DirPart(dir: string): (r: string)
    ensures r == [] || r[|r| - 1] == '/'
  {
    if dir == [] || dir[|dir| - 1] == '/' then dir else dir + "/"
  }

  /** An artifact path is a directory part, the file stem and the extension. */
  lemma ArtifactPathShape(dir: string, safe: string, ext: string)
    requires '/' !in safe && '/' !in ext
    ensures ArtifactPath(dir, safe, ext) == DirPart(Join(dir, safe)) + safe + ext
  {
    var d := Join(dir, safe);
    assert safe + ext == [] || (safe + ext)[0] != '/' by {
      if safe + ext != [] {
        assert (safe + ext)[0] in safe || (safe + ext)[0] in ext;
      }
    }
    assert Join(d, safe + ext) == DirPart(d) + (safe + ext);
  }

  /** `s.endswith(suffix)` */
  predicate EndsWith(s: string, suffix: string) {
    |suffix| <= |s| && s[|s| - |suffix|..] == suffix
  }

  /** `s.endswith(suffix)`: `s` is some string followed by `suffix`. */
  lemma EndsWithMeaning(s: string, p: string, suffix: string)
    ensures EndsWith(p + suffix, suffix)
    ensures EndsWith(s, suffix) ==> s == s[..|s| - |suffix|] + suffix
  {
    assert (p + suffix)[|p|..] == suffix;
  }

  /** `s.rfind(c)`: the index of the last `c` in `s`, or -1. */
  function LastIndexOf(s: string, c: char): (r: int)
    ensures -1 <= r < |s|
    ensures 0 <= r ==> s[r] == c
    ensures forall j :: r < j < |s| ==> s[j] != c
  {
    if s == [] then -1
    else if s[|s| - 1] == c then |s| - 1
    else LastIndexOf(s[..|s| - 1], c)
  }

  predicate AllDots(s: string) {
    forall i :: 0 <= i < |s| ==> s[i] == '.'
  }

  /** `os.path.splitext(p)`: the extension starts at the last `.` of the last
      path component, unless everything before that dot in the component is
      dots (so `.bashrc` and `a/..` have no extension). */
  function SplitExt(p: string): (r: (string, string))
    ensures r.0 + r.1 == p
    ensures r.1 == [] || (r.1[0] == '.' && '/' !in r.1 && '.' !in r.1[1..])
  {
    var sep := LastIndexOf(p, '/');
    var dot := LastIndexOf(p, '.');
    if sep < dot && !AllDots(p[sep + 1..dot]) then
      ExtensionShape(p, dot);
      (p[..dot], p[dot..])
    else
      (p, "")
  }

  /** Cutting at the last dot, when no `/` follows it, leaves an extension
      made of that dot and characters other than `.` and `/`. */
  lemma ExtensionShape(p: string, dot: nat)
    requires dot == LastIndexOf(p, '.') && LastIndexOf(p, '/') < dot
    ensures p[..dot] + p[dot..] == p
    ensures var ext := p[dot..]; ext[0] == '.' && '/' !in ext && '.' !in ext[1..]
  {
    NoneAfterLast(p, '/', dot);
    NoneAfterLast(p, '.', dot + 1);
    assert p[dot..][1..] == p[dot + 1..];
  }

  /** Nothing after the last occurrence of `c` is a `c`. */
  lemma NoneAfterLast(s: string, c: char, from: nat)
    requires LastIndexOf(s, c) < from <= |s|
    ensures c !in s[from..]
  {
    forall j | 0 <= j < |s| - from
      ensures s[from..][j] != c
    {
      assert s[from..][j] == s[from + j];
    }
  }

  /** Any index with the defining property of `LastIndexOf` is its value. */
  lemma LastIndexOfUnique(s: string, c: char, k: int)
    requires -1 <= k < |s|
    requires 0 <= k ==> s[k] == c
    requires forall j :: k < j < |s| ==> s[j] != c
    ensures LastIndexOf(s, c) == k
  {
  }

  lemma LastIndexOfAppend(a: string, b: string, c: char)
    ensures LastIndexOf(a + b, c) == if c in b then |a| + LastIndexOf(b, c) else LastIndexOf(a, c)
  {
    var s := a + b;
    if c in b {
      var k := |a| + LastIndexOf(b, c);
      forall j | k < j < |s| ensures s[j] != c {
        assert s[j] == b[j - |a|];
      }
      LastIndexOfUnique(s, c, k);
    } else {
      var k := LastIndexOf(a, c);
      forall j | k < j < |s| ensures s[j] != c {
        if j >= |a| {
          assert s[j] == b[j - |a|];
        }
      }
      LastIndexOfUnique(s, c, k);
    }
  }

  /** Inserting a tag (no `/`, no `.`) between the stem and the extension of
      a path keeps the extension and adds the tag to the stem. */
  lemma SplitExtOfTagged(root: string, tag: string, ext: string)
    requires tag != [] && '/' !in tag && '.' !in tag
    requires ext == [] || (ext[0] == '.' && '/' !in ext && '.' !in ext[1..])
    requires ext == [] ==> SplitExt(root).1 == []
    ensures SplitExt(root + tag + ext) == (root + tag, ext)
  {
    if ext == [] {
      assert root + tag + ext == root + tag;
      TaggedWithoutExtension(root, tag);
    } else {
      TaggedWithExtension(root, tag, ext);
    }
  }

  lemma TaggedWithoutExtension(root: string, tag: string)
    requires '/' !in tag && '.' !in tag
    requires SplitExt(root).1 == []
    ensures SplitExt(root + tag) == (root + tag, "")
  {
    var s := root + tag;
    LastIndexOfAppend(root, tag, '/');
    LastIndexOfAppend(root, tag, '.');
    var sep, dot := LastIndexOf(s, '/'), LastIndexOf(s, '.');
    if sep < dot {
      assert s[sep + 1..dot] == root[sep + 1..dot];
    }
  }

  lemma TaggedWithExtension(root: string, tag: string, ext: string)
    requires tag != [] && '/' !in tag && '.' !in tag
    requires ext != [] && ext[0] == '.' && '/' !in ext && '.' !in ext[1..]
    ensures SplitExt(root + tag + ext) == (root + tag, ext)
  {
    var s := root + tag + ext;
    assert s == (root + tag) + ext;
    LastIndexOfAppend(root, tag, '/');
    LastIndexOfAppend(root + tag, ext, '/');
    LastIndexOfAppend(root + tag, ext, '.');
    LastIndexOfUnique(ext, '.', 0);
    var sep, dot := LastIndexOf(s, '/'), LastIndexOf(s, '.');
    assert sep == LastIndexOf(root, '/');
    assert dot == |root| + |tag|;
    assert s[sep + 1..dot][|root| - (sep + 1)] == tag[0];
    assert s[..dot] == root + tag && s[dot..] == ext;
  }

  /** A file name placed after a directory part gets its extension split
      off at the extension's own dot, unless everything before that dot is
      dots (a hidden-file name, or no name at all). */
  lemma SplitExtOfComponent(dirPart: string, stem: string, ext: string)
    requires dirPart == [] || dirPart[|dirPart| - 1] == '/'
    requires '/' !in stem
    requires ext != [] && ext[0] == '.' && '/' !in ext && '.' !in ext[1..]
    ensures SplitExt(dirPart + stem + ext) == if AllDots(stem) then (dirPart + stem + ext, "") else (dirPart + stem, ext)
  {
    var s := dirPart + stem + ext;
    assert s == (dirPart + stem) + ext;
    LastIndexOfAppend(dirPart, stem, '/');
    LastIndexOfAppend(dirPart + stem, ext, '/');
    LastIndexOfAppend(dirPart + stem, ext, '.');
    LastIndexOfUnique(ext, '.', 0);
    LastIndexOfUnique(dirPart, '/', |dirPart| - 1);
    var sep, dot := LastIndexOf(s, '/'), LastIndexOf(s, '.');
    assert sep == |dirPart| - 1;
    assert dot == |dirPart| + |stem|;
    assert s[sep + 1..dot] == stem;
    assert s[..dot] == dirPart + stem && s[dot..] == ext;
  }
}
