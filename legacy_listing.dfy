/**
 * The older, hand-written HTML directory page (`src/directory.rs`): a title
 * with the entry count, an optional parent-directory link, and one `<li>` per
 * surviving entry, in sorted order.
 */
module LegacyListing {
  import opened Wrappers
  import opened FileSystem
  import opened Emoji
  import opened Listing
  import LegacyConfig

  /** The parts of the page that depend on the directory; the surrounding HTML document is fixed. */
  datatype Page = Page(title: string, backHtml: string, listItems: string)

  const SizeOpen := "<span class=\"size\">"

  /** The link part of a row: a directory's link and name end in '/', a file's row adds its size. */
  function NameHtml(s: Survivor, fmt: Formatting): string {
    var href := fmt.percentEncode(s.href);
    var name := fmt.escapeHtml(s.entry.fileName);
    if s.meta.isDir then
      "<a class=\"filename\" href=\"" + href + "/\">" + name + "/</a>"
    else
      "<a class=\"filename\" href=\"" + href + "\">" + name + "</a>" + SizeOpen + fmt.byteSize(s.meta.len) + "</span>"
  }

  /** The `<li>` of a surviving entry; an unreadable modification time shows the clock reading `now`. */
  function ItemHtml(s: Survivor, emojis: FancyRendererEmojis, fmt: Formatting, now: int): string {
    "<li><span class=\"emoji\">" + ResolveEmoji(emojis, s.entry.path, s.meta.isDir)
    + "</span><span class=\"timestamp\">" + fmt.escapeHtml(fmt.formatTime(s.meta.modified.GetOr(now)))
    + "</span>" + NameHtml(s, fmt) + "</li>\n"
  }

  /** The strings of `parts`, one after the other. */
  function Concat(parts: seq<string>): string {
    if parts == [] then "" else Concat(parts[..|parts| - 1]) + parts[|parts| - 1]
  }

  /** The item of each row, in order. */
  function ItemsOf(rows: seq<Survivor>, emojis: FancyRendererEmojis, fmt: Formatting, now: int): (items: seq<string>)
    ensures |items| == |rows|
  {
    seq(|rows|, k requires 0 <= k < |rows| => ItemHtml(rows[k], emojis, fmt, now))
  }

  /** The `list_items` string for the sorted `entries`: one item per surviving entry, in order. */
  function ListItems(entries: seq<DirEntry>, dirPath: string, requestPath: string,
                     emojis: FancyRendererEmojis, fmt: Formatting, now: int): string {
    Concat(ItemsOf(Survivors(entries, dirPath, requestPath), emojis, fmt, now))
  }

  lemma {:induction false} ItemsOfAppend(a: seq<Survivor>, b: seq<Survivor>, emojis: FancyRendererEmojis, fmt: Formatting, now: int)
    ensures ItemsOf(a + b, emojis, fmt, now) == ItemsOf(a, emojis, fmt, now) + ItemsOf(b, emojis, fmt, now)
  {
    var l, r := ItemsOf(a + b, emojis, fmt, now), ItemsOf(a, emojis, fmt, now) + ItemsOf(b, emojis, fmt, now);
    forall k | 0 <= k < |l| ensures l[k] == r[k] {
      if k < |a| {
        assert (a + b)[k] == a[k];
      } else {
        assert (a + b)[k] == b[k - |a|];
      }
    }
  }

  /** One more row appends its item. */
  lemma {:induction false} ItemsSnoc(rows: seq<Survivor>, x: Survivor, emojis: FancyRendererEmojis, fmt: Formatting, now: int)
    ensures Concat(ItemsOf(rows + [x], emojis, fmt, now)) == Concat(ItemsOf(rows, emojis, fmt, now)) + ItemHtml(x, emojis, fmt, now)
  {
    ItemsOfAppend(rows, [x], emojis, fmt, now);
    var items := ItemsOf(rows + [x], emojis, fmt, now);
    assert items[..|items| - 1] == ItemsOf(rows, emojis, fmt, now);
  }

  /** One more entry appends its item when it survives. */
  lemma {:induction false} ListItemsStep(entries: seq<DirEntry>, i: nat, dirPath: string, requestPath: string,
                      emojis: FancyRendererEmojis, fmt: Formatting, now: int)
    requires i < |entries|
    ensures Survive(entries[i], dirPath, requestPath).None? ==>
      ListItems(entries[..i + 1], dirPath, requestPath, emojis, fmt, now)
      == ListItems(entries[..i], dirPath, requestPath, emojis, fmt, now)
    ensures Survive(entries[i], dirPath, requestPath).Some? ==>
      ListItems(entries[..i + 1], dirPath, requestPath, emojis, fmt, now)
      == ListItems(entries[..i], dirPath, requestPath, emojis, fmt, now)
         + ItemHtml(Survive(entries[i], dirPath, requestPath).value, emojis, fmt, now)
  {
    assert entries[..i + 1][..i] == entries[..i];
    var rows := Survivors(entries[..i], dirPath, requestPath);
    var step := Survive(entries[i], dirPath, requestPath);
    if step.Some? {
      assert Survivors(entries[..i + 1], dirPath, requestPath) == rows + [step.value];
      ItemsSnoc(rows, step.value, emojis, fmt, now);
    } else {
      assert Survivors(entries[..i + 1], dirPath, requestPath) == rows;
    }
  }

  function Title(requestPath: string, count: nat, fmt: Formatting): string {
    "Index of " + requestPath + " (" + fmt.formatCount(count) + " items)"
  }

  /** The parent-directory block, around the HTML-escaped back link, or nothing. */
  function BackHtml(requestPath: string, fmt: Formatting): string {
    match BackLink(requestPath)
    case None => ""
    case Some(href) => "<div class=\"back\"><a href=\"" + fmt.escapeHtml(href) + "\">🔙 Parent directory</a></div>"
  }

  /** The page for the sorted `entries` of the directory at `dirPath`. */
  function PageOf(entries: seq<DirEntry>, dirPath: string, requestPath: string,
                  emojis: FancyRendererEmojis, fmt: Formatting, now: int): Page {
    Page(Title(requestPath, |entries|, fmt), BackHtml(requestPath, fmt),
         ListItems(entries, dirPath, requestPath, emojis, fmt, now))
  }

  /** The row loop: appends the item of every entry that survives. */
  method BuildItems(entries: seq<DirEntry>, dirPath: string, requestPath: string,
                    emojis: FancyRendererEmojis, fmt: Formatting, now: int)
    returns (listItems: string)
    ensures listItems == ListItems(entries, dirPath, requestPath, emojis, fmt, now)
  {
    listItems := "";
    for i := 0 to |entries|
      invariant listItems == ListItems(entries[..i], dirPath, requestPath, emojis, fmt, now)
    {
      ListItemsStep(entries, i, dirPath, requestPath, emojis, fmt, now);
      match Survive(entries[i], dirPath, requestPath)
      case None =>
      case Some(survivor) =>
        listItems := listItems + ItemHtml(survivor, emojis, fmt, now);
    }
    assert entries[..|entries|] == entries;
  }

  /**
   * `directory_listing`: fails when the configuration is missing (checked
   * first) or the directory cannot be read; otherwise builds the page of the
   * sorted entries.
   */
  method DirectoryListing(dir: Directory, requestPath: string, config: Option<LegacyConfig.Config>,
                          isVisible: Visibility, fmt: Formatting, now: int)
    returns (r: Result<Page, IoError>)
    ensures config.None? ==> r == Failure(Fault(OtherFault))
    ensures config.Some? && dir.contents.Failure? ==> r == Failure(dir.contents.error)
    ensures config.Some? && dir.contents.Success? ==>
      r == Success(PageOf(SortByKey(Visible(dir.contents.value, isVisible)), dir.path, requestPath,
                          config.value.fileListingRender, fmt, now))
  {
    if config.None? {
      return Failure(Fault(OtherFault));
    }
    var emojis := config.value.fileListingRender;
    var sorted := SortedEntries(dir, isVisible);
    if sorted.Failure? {
      return Failure(sorted.error);
    }
    var entries := sorted.value;
    var title := Title(requestPath, |entries|, fmt);
    var listItems := BuildItems(entries, dir.path, requestPath, emojis, fmt, now);
    var backHtml := BackHtml(requestPath, fmt);
    return Success(Page(title, backHtml, listItems));
  }

  /** A directory's link ends with its name and a '/', with no size; a file's link ends with its size. */
  lemma {:induction false} NameEnding(s: Survivor, fmt: Formatting)
    ensures var html := NameHtml(s, fmt);
      var tail := if s.meta.isDir then fmt.escapeHtml(s.entry.fileName) + "/</a>"
                  else SizeOpen + fmt.byteSize(s.meta.len) + "</span>";
      |tail| <= |html| && html[|html| - |tail|..] == tail
  {
    var name := fmt.escapeHtml(s.entry.fileName);
    var href := fmt.percentEncode(s.href);
    var html := NameHtml(s, fmt);
    if s.meta.isDir {
      var head := "<a class=\"filename\" href=\"" + href + "/\">";
      assert html == head + (name + "/</a>");
    } else {
      var head := "<a class=\"filename\" href=\"" + href + "\">" + name + "</a>";
      assert html == head + (SizeOpen + fmt.byteSize(s.meta.len) + "</span>");
    }
  }

  lemma {:induction false} ConcatAppend(a: seq<string>, b: seq<string>)
    ensures Concat(a + b) == Concat(a) + Concat(b)
  {
    if b == [] {
      assert a + b == a;
    } else {
      var init, last := b[..|b| - 1], b[|b| - 1];
      assert (a + b)[..|a + b| - 1] == a + init;
      assert (a + b)[|a + b| - 1] == last;
      ConcatAppend(a, init);
      calc {
        Concat(a + b);
        Concat(a + init) + last;
        Concat(a) + Concat(init) + last;
        { assert Concat(b) == Concat(init) + last; }
        Concat(a) + Concat(b);
      }
    }
  }

  /**
   * Listing two groups of entries one after the other gives their items one
   * after the other: each entry contributes its item independently.
   */
  lemma {:induction false} ListItemsAppend(a: seq<DirEntry>, b: seq<DirEntry>, dirPath: string, requestPath: string,
                        emojis: FancyRendererEmojis, fmt: Formatting, now: int)
    ensures ListItems(a + b, dirPath, requestPath, emojis, fmt, now)
         == ListItems(a, dirPath, requestPath, emojis, fmt, now) + ListItems(b, dirPath, requestPath, emojis, fmt, now)
  {
    SurvivorsAppend(a, b, dirPath, requestPath);
    var ra, rb := Survivors(a, dirPath, requestPath), Survivors(b, dirPath, requestPath);
    ItemsOfAppend(ra, rb, emojis, fmt, now);
    ConcatAppend(ItemsOf(ra, emojis, fmt, now), ItemsOf(rb, emojis, fmt, now));
  }

  /** The parent-directory block appears exactly when there is a back link. */
  lemma {:induction false} BackHtmlIffBackLink(requestPath: string, fmt: Formatting)
    ensures BackHtml(requestPath, fmt) == "" <==> BackLink(requestPath).None?
    ensures BackLink(requestPath).Some? ==>
      var block := BackHtml(requestPath, fmt);
      var open := "<div class=\"back\"><a href=\"";
      |open| <= |block| && block[..|open|] == open
  {
  }
}
