/**
 * Unix paths as strings, with the parts of Rust's `Path`/`PathBuf` that the
 * server uses: `join`, `strip_prefix`, `file_name` and `extension`.
 */
module Paths {
  import opened Wrappers
  import opened Text

  predicate IsAbsolute(p: string) {
    |p| > 0 && p[0] == '/'
  }

  /**
   * `PathBuf::join`: an absolute child replaces the base; otherwise a separator
   * is inserted unless the base is empty or already ends in one.
   */
  function Join(base: string, child: string): string {
    if IsAbsolute(child) then child
    else if base == [] || base[|base| - 1] == '/' then base + child
    else base + "/" + child
  }

  /** The normal components: pieces that are neither empty nor `.`. */
  function Normal(parts: seq<string>): (r: seq<string>)
    ensures |r| <= |parts|
    ensures forall k :: 0 <= k < |r| ==> r[k] != "" && r[k] != "." && r[k] in parts
  {
    if parts == [] then []
    else if parts[0] == "" || parts[0] == "." then Normal(parts[1..])
    else [parts[0]] + Normal(parts[1..])
  }

  /** `Path::components`, the root written as "/". */
  function Components(p: string): seq<string> {
    (if IsAbsolute(p) then ["/"] else []) + Normal(Split(p))
  }

  /** Turns a list of components back into a path. */
  function Assemble(cs: seq<string>): string {
    if |cs| > 0 && cs[0] == "/" then "/" + JoinWith(cs[1..], "/") else JoinWith(cs, "/")
  }

  /** `Path::strip_prefix`: succeeds when the components of `base` start those of `path`. */
  function StripPrefix(path: string, base: string): Option<string> {
    var pc, bc := Components(path), Components(base);
    if |bc| <= |pc| && pc[..|bc|] == bc then Some(Assemble(pc[|bc|..])) else None
  }

  /** `Path::file_name`: the last normal component, none when that is `..` or absent. */
  function FileName(p: string): Option<string> {
    var n := Normal(Split(p));
    if |n| == 0 || n[|n| - 1] == ".." then None else Some(n[|n| - 1])
  }

  /**
   * The extension of a file name (Rust's `rsplit_file_at_dot`): the text after
   * the last dot, none for `..`, for a name without a dot, or when the only
   * text before the last dot is empty (a hidden file such as `.bashrc`).
   */
  function NameExtension(name: string): Option<string> {
    if name == ".." then None
    else match LastIndex(name, '.')
      case None => None
      case Some(i) => if i == 0 then None else Some(name[i + 1..])
  }

  /** `Path::extension`. */
  function Extension(p: string): Option<string> {
    match FileName(p)
    case None => None
    case Some(n) => NameExtension(n)
  }

  /** A single normal path component, safe to join under a directory. */
  predicate IsPlainName(s: string) {
    IsSegment(s) && s != "." && s != ".."
  }

  lemma {:induction false} NormalAppend(a: seq<string>, b: seq<string>)
    ensures Normal(a + b) == Normal(a) + Normal(b)
  {
    if a == [] {
      assert a + b == b;
    } else {
      assert (a + b)[1..] == a[1..] + b;
      NormalAppend(a[1..], b);
    }
  }

  /** Joining a plain name adds exactly one normal component at the end. */
  lemma {:induction false} NormalOfJoin(base: string, name: string)
    requires IsPlainName(name)
    ensures Normal(Split(Join(base, name))) == Normal(Split(base)) + [name]
    ensures IsAbsolute(Join(base, name)) == IsAbsolute(base)
  {
    SplitOfSegment(name);
    if base == [] {
      assert Join(base, name) == name;
    } else if base[|base| - 1] == '/' {
      NormalAfterSlash(base, name);
    } else {
      SplitAppend(base, name);
      NormalAppend(Split(base), [name]);
    }
  }

  /** The case of `NormalOfJoin` where the base already ends in '/'. */
  lemma {:induction false} NormalAfterSlash(base: string, name: string)
    requires IsPlainName(name) && Split(name) == [name]
    requires base != [] && base[|base| - 1] == '/'
    ensures Join(base, name) == base + name
    ensures Normal(Split(base + name)) == Normal(Split(base)) + [name]
  {
    var t := base[..|base| - 1];
    assert base == t + "/" + "";
    assert base + name == t + "/" + name;
    SplitAppend(t, "");
    SplitAppend(t, name);
    NormalAppend(Split(t), [""]);
    NormalAppend(Split(t), [name]);
  }

  /** The file name of `base` joined with a plain name is that name. */
  lemma {:induction false} FileNameOfJoin(base: string, name: string)
    requires IsPlainName(name)
    ensures FileName(Join(base, name)) == Some(name)
  {
    NormalOfJoin(base, name);
  }

  /** `strip_prefix` undoes `join` of a plain name. */
  lemma {:induction false} StripPrefixOfJoin(base: string, name: string)
    requires IsPlainName(name)
    ensures StripPrefix(Join(base, name), base) == Some(name)
  {
    ComponentsOfJoin(base, name);
    var bc := Components(base);
    var pc := bc + [name];
    assert pc[..|bc|] == bc;
    assert pc[|bc|..] == [name];
    AssembleSingle(name);
  }

  /** Joining a plain name adds it as the last component. */
  lemma {:induction false} ComponentsOfJoin(base: string, name: string)
    requires IsPlainName(name)
    ensures Components(Join(base, name)) == Components(base) + [name]
  {
    NormalOfJoin(base, name);
  }

  lemma {:induction false} AssembleSingle(name: string)
    requires IsPlainName(name)
    ensures Assemble([name]) == name
  {
    assert name != "/" by {
      assert '/' !in name;
    }
  }

  /** A name `stem.ext` has extension `ext` whenever `ext` has no dot. */
  lemma {:induction false} ExtensionOfStem(stem: string, ext: string)
    requires stem != [] && stem != "."
    requires '.' !in ext
    ensures NameExtension(stem + "." + ext) == Some(ext)
  {
    var name := stem + "." + ext;
    LastIndexPast(stem, '.', ext);
    assert stem + "." + ext == stem + ['.'] + ext;
    assert name[|stem| + 1..] == ext;
    assert name != ".." by {
      if |stem| == 1 && ext == [] {
        assert stem == [name[0]];
      }
    }
  }

  /** `stem.ext` is a single normal component when neither part holds a '/' and the stem is not `.`. */
  lemma {:induction false} PlainStemName(stem: string, ext: string)
    requires stem != [] && stem != "." && '/' !in stem && '/' !in ext
    ensures IsPlainName(stem + "." + ext)
  {
    var name := stem + "." + ext;
    assert forall k :: 0 <= k < |name| ==> name[k] == (if k < |stem| then stem[k] else if k == |stem| then '.' else ext[k - |stem| - 1]);
    assert name != ".." by {
      if |stem| == 1 && ext == [] {
        assert stem == [name[0]];
      }
    }
  }

  /** An extension is the dot-free text after a dot that is not the first character. */
  lemma {:induction false} ExtensionShape(name: string, ext: string)
    requires NameExtension(name) == Some(ext)
    ensures '.' !in ext
    ensures exists i :: 0 < i < |name| && name[i] == '.' && name[i + 1..] == ext
  {
    var i := LastIndex(name, '.').value;
    assert name[i + 1..] == ext;
  }
}
