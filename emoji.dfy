/**
 * The icon shown beside a listing entry: a fixed glyph for directories, the
 * glyph mapped to a file's extension, or a fallback glyph.
 */
module Emoji {
  import opened Wrappers
  import opened Text
  import opened Paths

  datatype FancyRendererEmojis = FancyRendererEmojis(directory: string, unknown: string, fileExtensions: map<string, string>)

  /** The key looked up for an entry: its path's extension, or "" when it has none. */
  function ExtensionKey(path: string): string {
    Extension(path).GetOr("")
  }

  /** `FancyRendererEmojis::resolve_emoji`, given the entry's path and whether its metadata says directory. */
  function ResolveEmoji(emojis: FancyRendererEmojis, path: string, isDir: bool): (glyph: string)
    ensures isDir ==> glyph == emojis.directory
    ensures !isDir && ExtensionKey(path) in emojis.fileExtensions ==> glyph == emojis.fileExtensions[ExtensionKey(path)]
    ensures !isDir && ExtensionKey(path) !in emojis.fileExtensions ==> glyph == emojis.unknown
  {
    if isDir then emojis.directory
    else if ExtensionKey(path) in emojis.fileExtensions then emojis.fileExtensions[ExtensionKey(path)]
    else emojis.unknown
  }

  /** The glyph depends on the entry only through its kind and its extension. */
  lemma {:induction false} ResolveDependsOnlyOnExtension(emojis: FancyRendererEmojis, p1: string, p2: string, isDir: bool)
    requires Extension(p1).GetOr("") == Extension(p2).GetOr("")
    ensures ResolveEmoji(emojis, p1, isDir) == ResolveEmoji(emojis, p2, isDir)
  {
  }

  /**
   * A file `stem.ext` under any directory gets the glyph mapped to `ext`
   * (matched exactly, so case matters), or the fallback when `ext` is unmapped.
   */
  lemma {:induction false} FileGlyphFollowsExtension(emojis: FancyRendererEmojis, dir: string, stem: string, ext: string)
    requires IsPlainName(stem + "." + ext) && stem != [] && stem != "."
    requires '.' !in ext
    ensures ResolveEmoji(emojis, Join(dir, stem + "." + ext), false)
         == if ext in emojis.fileExtensions then emojis.fileExtensions[ext] else emojis.unknown
  {
    FileNameOfJoin(dir, stem + "." + ext);
    ExtensionOfStem(stem, ext);
  }

  /**
   * A file whose name has no dot, or whose only dot leads (a hidden file such as
   * `.bashrc`), is looked up as "" and so gets the fallback unless "" is mapped.
   */
  lemma {:induction false} DotlessFileLooksUpEmptyKey(emojis: FancyRendererEmojis, dir: string, name: string)
    requires IsPlainName(name)
    requires '.' !in name || (name[0] == '.' && '.' !in name[1..])
    ensures ExtensionKey(Join(dir, name)) == ""
    ensures "" !in emojis.fileExtensions ==> ResolveEmoji(emojis, Join(dir, name), false) == emojis.unknown
  {
    FileNameOfJoin(dir, name);
  }

  /** `FancyRendererEmojis::default()`. */
  function Default(): FancyRendererEmojis {
    var picture, video, archive, audio := "🖼️", "📺", "📦", "🎵";
    var document, code := "📄", "🧩";
    FancyRendererEmojis("📂", "❓", map[
      "png" := picture, "jpg" := picture, "jpeg" := picture, "webp" := picture,
      "gif" := picture, "avif" := picture, "ciff" := picture,
      "mp4" := video,
      "zip" := archive, "tar" := archive, "rar" := archive, "7z" := archive, "gz" := archive,
      "mp3" := audio, "wav" := audio, "ogg" := audio,
      "mrpack" := "🕹️",
      "md" := document, "txt" := document, "pdf" := document, "docx" := document,
      "log" := document, "json" := document, "jsonc" := document,
      "jar" := "🍵",
      "js" := code, "rs" := code,
      "css" := "👕",
      "exe" := "💾"])
  }

  /** Images get the picture glyph. */
  lemma {:induction false} DefaultPictureGlyph(dir: string)
    ensures ResolveEmoji(Default(), Join(dir, "cat.png"), false) == "🖼️"
  {
    assert "png" in Default().fileExtensions && Default().fileExtensions["png"] == "🖼️";
    assert "cat.png" == "cat" + "." + "png";
    PlainStemName("cat", "png");
    FileGlyphFollowsExtension(Default(), dir, "cat", "png");
  }

  /** The lookup is case-sensitive: an upper-case extension is unknown. */
  lemma {:induction false} DefaultLookupIsCaseSensitive(dir: string)
    ensures ResolveEmoji(Default(), Join(dir, "CAT.PNG"), false) == "❓"
  {
    assert "PNG" !in Default().fileExtensions;
    assert "CAT.PNG" == "CAT" + "." + "PNG";
    PlainStemName("CAT", "PNG");
    FileGlyphFollowsExtension(Default(), dir, "CAT", "PNG");
  }

  /** Only the last extension counts: `backup.tar.zip` is a zip archive. */
  lemma {:induction false} DefaultArchiveGlyph(dir: string)
    ensures ResolveEmoji(Default(), Join(dir, "backup.tar.zip"), false) == "📦"
  {
    assert "zip" in Default().fileExtensions && Default().fileExtensions["zip"] == "📦";
    assert "backup.tar.zip" == "backup.tar" + "." + "zip";
    PlainStemName("backup.tar", "zip");
    FileGlyphFollowsExtension(Default(), dir, "backup.tar", "zip");
  }

  /** Directories get the folder glyph whatever their name says. */
  lemma {:induction false} DefaultDirectoryGlyph(dir: string)
    ensures ResolveEmoji(Default(), Join(dir, "pics.png"), true) == "📂"
  {
  }
}
