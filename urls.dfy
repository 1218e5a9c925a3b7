/**
 * Absolute URLs and reference resolution (section 5.2 of RFC 3986) for the
 * references the upload handler builds: relative paths with no scheme, query,
 * fragment or dot segments.
 */
module Urls {
  import opened Wrappers
  import opened Text

  /** A parsed absolute URL: `scheme://authority` and a path that starts with '/'. */
  datatype Url = Url(origin: string, path: string)

  function Serialize(u: Url): string {
    u.origin + u.path
  }

  /**
   * A character that resolution copies into the path as it is: printable
   * ASCII outside the path percent-encode set of the WHATWG URL Standard
   * (controls, space, `"`, `#`, `<`, `>`, `?`, backquote, `{`, `}` and all
   * non-ASCII characters are encoded), and none of ':' (which could start a
   * scheme), '\\' (a separator in special schemes) or '%' (which could spell
   * an encoded dot segment).
   */
  predicate IsVerbatimPathChar(c: char) {
    '!' <= c <= '~' && c !in "\"#<>?`{}:\\%"
  }

  /** A relative-path reference whose resolution is a plain path merge, with nothing to percent-encode. */
  predicate IsPlainRelative(r: string) {
    && r != []
    && r[0] != '/'
    && (forall k :: 0 <= k < |r| ==> IsVerbatimPathChar(r[k]))
    && (forall seg :: seg in Split(r) ==> seg != "." && seg != "..")
  }

  /** Section 5.2.3 of RFC 3986: the base path up to and including its last '/'. */
  function DirectoryPart(path: string): (d: string)
    ensures d != [] && d[|d| - 1] == '/'
  {
    match LastIndex(path, '/')
    case None => "/"
    case Some(i) => path[..i + 1]
  }

  /**
   * `Url::join`. `None` stands for a reference outside the plain relative
   * paths this model resolves.
   */
  function Join(base: Url, reference: string): Option<Url> {
    if IsPlainRelative(reference) then Some(Url(base.origin, DirectoryPart(base.path) + reference))
    else None
  }

  /** A directory part is its own directory part. */
  lemma {:induction false} DirectoryPartOfDirectory(d: string)
    requires d != [] && d[|d| - 1] == '/'
    ensures DirectoryPart(d) == d
  {
    assert d[..|d|] == d;
  }

  /** `dir/` is a plain relative reference when `dir` is a plain segment. */
  lemma {:induction false} DirectoryReferenceIsPlain(dir: string)
    requires IsSegment(dir) && dir != "." && dir != ".."
    requires forall k :: 0 <= k < |dir| ==> IsVerbatimPathChar(dir[k])
    ensures IsPlainRelative(dir + "/")
  {
    var r := dir + "/";
    assert r == dir + "/" + "";
    SplitAppend(dir, "");
    SplitOfSegment(dir);
    assert Split(r) == [dir, ""];
    assert forall k :: 0 <= k < |r| ==> r[k] == (if k < |dir| then dir[k] else '/');
  }

  /** Resolving `dir/` and then `name` against a base appends both to the base's directory. */
  lemma {:induction false} JoinTwice(base: Url, dir: string, name: string)
    requires IsSegment(dir) && dir != "." && dir != ".."
    requires forall k :: 0 <= k < |dir| ==> IsVerbatimPathChar(dir[k])
    requires IsPlainRelative(name)
    ensures Join(base, dir + "/").Some?
    ensures Join(Join(base, dir + "/").value, name)
         == Some(Url(base.origin, DirectoryPart(base.path) + dir + "/" + name))
  {
    DirectoryReferenceIsPlain(dir);
    var mid := DirectoryPart(base.path) + (dir + "/");
    assert Join(base, dir + "/") == Some(Url(base.origin, mid));
    DirectoryPartOfDirectory(mid);
    assert mid + name == DirectoryPart(base.path) + dir + "/" + name;
  }
}
