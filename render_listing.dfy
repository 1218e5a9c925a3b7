/**
 * The template-based directory page (`src/render/mod.rs`): one
 * `IndividualListing` per surviving entry, in sorted order, handed with the
 * back link and the entry count to the page template.
 */
module RenderListing {
  import opened Wrappers
  import opened FileSystem
  import opened Emoji
  import opened Listing
  import Namespaces

  datatype IndividualListing = IndividualListing(
    emoji: string,
    timestamp: string,
    fileHref: string,
    fileName: string,
    byteSize: string,
    isDirectory: bool)

  datatype DirectoryView = DirectoryView(
    currentDirectory: string,
    totalItems: string,
    parentDirHref: string,
    individualListings: seq<IndividualListing>)

  /** An HTTP response: its status and its body. */
  datatype Response = Response(status: nat, body: string)

  /** The template engine: the page, or `None` when rendering fails. */
  type Renderer = DirectoryView -> Option<string>

  const RenderFailure := "Failed to render directory listing"

  /**
   * The row of a surviving entry. An unreadable modification time shows the
   * clock reading `now` instead.
   */
  function Row(s: Survivor, emojis: FancyRendererEmojis, fmt: Formatting, now: int): IndividualListing {
    IndividualListing(
      ResolveEmoji(emojis, s.entry.path, s.meta.isDir),
      fmt.formatTime(s.meta.modified.GetOr(now)),
      s.href,
      s.entry.fileName,
      fmt.byteSize(s.meta.len),
      s.meta.isDir)
  }

  /**
   * The rows of the surviving entries, in order: row `k` shows surviving
   * entry `k`, is a directory exactly when that entry's metadata says so, and
   * links to the entry's path under the request path.
   */
  function Rows(entries: seq<DirEntry>, dirPath: string, requestPath: string,
                emojis: FancyRendererEmojis, fmt: Formatting, now: int): (rows: seq<IndividualListing>)
    ensures |rows| == |Survivors(entries, dirPath, requestPath)| <= |entries|
    ensures forall k :: 0 <= k < |rows| ==>
      var s := Survivors(entries, dirPath, requestPath)[k];
      && rows[k].isDirectory == s.meta.isDir
      && rows[k].fileName == s.entry.fileName
      && rows[k].fileHref == s.href
      && rows[k].emoji == ResolveEmoji(emojis, s.entry.path, s.meta.isDir)
      && rows[k].timestamp == fmt.formatTime(s.meta.modified.GetOr(now))
      && rows[k].byteSize == fmt.byteSize(s.meta.len)
  {
    var survivors := Survivors(entries, dirPath, requestPath);
    seq(|survivors|, k requires 0 <= k < |survivors| => Row(survivors[k], emojis, fmt, now))
  }

  /** One more entry adds its row when it survives. */
  lemma {:induction false} RowsStep(entries: seq<DirEntry>, i: nat, dirPath: string, requestPath: string,
                 emojis: FancyRendererEmojis, fmt: Formatting, now: int)
    requires i < |entries|
    ensures var step := Survive(entries[i], dirPath, requestPath);
      Rows(entries[..i + 1], dirPath, requestPath, emojis, fmt, now)
      == Rows(entries[..i], dirPath, requestPath, emojis, fmt, now) + (if step.Some? then [Row(step.value, emojis, fmt, now)] else [])
  {
    assert entries[..i + 1][..i] == entries[..i];
  }

  /**
   * The view of the sorted `entries`: the count shows every sorted entry,
   * skipped ones included, and the parent link is empty when there is none.
   */
  function View(entries: seq<DirEntry>, dirPath: string, requestPath: string,
                emojis: FancyRendererEmojis, fmt: Formatting, now: int): DirectoryView {
    DirectoryView(requestPath, fmt.formatCount(|entries|), BackLink(requestPath).GetOr(""),
                  Rows(entries, dirPath, requestPath, emojis, fmt, now))
  }

  /** The response for a view: the page, or a 500 when the template fails. */
  function Respond(view: DirectoryView, render: Renderer): (r: Response)
    ensures render(view).None? <==> r.status == 500
    ensures render(view).None? ==> r.body == RenderFailure
    ensures render(view).Some? ==> r == Response(200, render(view).value)
  {
    match render(view)
    case None => Response(500, RenderFailure)
    case Some(html) => Response(200, html)
  }

  /** The row loop of `directory_listing`: skips the entries that do not survive. */
  method BuildRows(entries: seq<DirEntry>, dirPath: string, requestPath: string,
                   emojis: FancyRendererEmojis, fmt: Formatting, now: int)
    returns (rows: seq<IndividualListing>)
    ensures rows == Rows(entries, dirPath, requestPath, emojis, fmt, now)
  {
    rows := [];
    for i := 0 to |entries|
      invariant rows == Rows(entries[..i], dirPath, requestPath, emojis, fmt, now)
    {
      RowsStep(entries, i, dirPath, requestPath, emojis, fmt, now);
      ghost var next := Rows(entries[..i + 1], dirPath, requestPath, emojis, fmt, now);
      match Survive(entries[i], dirPath, requestPath)
      case None =>
        assert rows == next;
      case Some(survivor) =>
        rows := rows + [Row(survivor, emojis, fmt, now)];
        assert rows == next;
    }
    assert entries[..|entries|] == entries;
  }

  /**
   * `directory_listing`: fails when the configuration is missing (checked
   * first) or the directory cannot be read; otherwise answers with the
   * rendered view of the sorted entries.
   */
  method DirectoryListing(dir: Directory, requestPath: string, config: Option<Namespaces.Config>,
                          isVisible: Visibility, fmt: Formatting, now: int, render: Renderer)
    returns (r: Result<Response, IoError>)
    ensures config.None? ==> r == Failure(Fault(OtherFault))
    ensures config.Some? && dir.contents.Failure? ==> r == Failure(dir.contents.error)
    ensures config.Some? && dir.contents.Success? ==>
      r == Success(Respond(View(SortByKey(Visible(dir.contents.value, isVisible)), dir.path, requestPath,
                                config.value.fileListingRender, fmt, now), render))
  {
    if config.None? {
      return Failure(Fault(OtherFault));
    }
    var emojis := config.value.fileListingRender;
    var sorted := SortedEntries(dir, isVisible);
    if sorted.Failure? {
      return Failure(sorted.error);
    }
    var entries := sorted.value;
    var backLink := BackLink(requestPath);
    var itemsStr := fmt.formatCount(|entries|);
    var rows := BuildRows(entries, dir.path, requestPath, emojis, fmt, now);
    var view := DirectoryView(requestPath, itemsStr, backLink.GetOr(""), rows);
    var html := render(view);
    if html.None? {
      return Success(Response(500, RenderFailure));
    }
    return Success(Response(200, html.value));
  }

  /**
   * The page lists directories before files, and within each group newer
   * entries first (a row is a directory exactly when its entry's metadata
   * says so, by `Rows`).
   */
  lemma {:induction false} RowsDirectoriesFirst(s: seq<DirEntry>, dirPath: string, requestPath: string,
                             emojis: FancyRendererEmojis, fmt: Formatting, now: int, i: nat, j: nat)
    requires i < j < |Rows(SortByKey(s), dirPath, requestPath, emojis, fmt, now)|
    ensures var rows := Rows(SortByKey(s), dirPath, requestPath, emojis, fmt, now);
      rows[j].isDirectory ==> rows[i].isDirectory
    ensures var survivors := Survivors(SortByKey(s), dirPath, requestPath);
      survivors[i].meta.isDir == survivors[j].meta.isDir ==>
        survivors[i].meta.modified.GetOr(0) >= survivors[j].meta.modified.GetOr(0)
  {
    SurvivorsFollowSortOrder(s, dirPath, requestPath, i, j);
  }

  /**
   * When every entry lies under the directory and its metadata can be read,
   * there is one row per entry and the row count equals the count shown.
   */
  lemma {:induction false} NothingSkipped(entries: seq<DirEntry>, dirPath: string, requestPath: string,
                       emojis: FancyRendererEmojis, fmt: Formatting, now: int)
    requires forall k :: 0 <= k < |entries| ==> Survive(entries[k], dirPath, requestPath).Some?
    ensures var view := View(entries, dirPath, requestPath, emojis, fmt, now);
      |view.individualListings| == |entries| && view.totalItems == fmt.formatCount(|entries|)
    ensures forall k :: 0 <= k < |entries| ==>
      Rows(entries, dirPath, requestPath, emojis, fmt, now)[k].fileName == entries[k].fileName
  {
    AllSurvive(entries, dirPath, requestPath);
  }
}
