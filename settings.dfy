/**
 * Configuration records both configuration layouts share, and where the
 * storage directories sit: the uploads directory, its `.temp` directory for
 * uploads in flight, and one directory per namespace.
 */
module Settings {
  import opened Wrappers
  import opened Text
  import opened Paths
  import Urls

  /** Whether a namespace's directories are browsable, and with which renderer. */
  datatype FileListingConfig = FileListingConfig(show: bool, useFancyRenderer: bool)

  datatype WebServerConfig = WebServerConfig(host: string, port: nat, listenUrl: Urls.Url, redirectIndexTo: Urls.Url)

  /** `FileListingConfig::default()`: listings hidden, fancy renderer chosen. */
  function DefaultFileListing(): FileListingConfig {
    FileListingConfig(false, true)
  }

  /** `WebServerConfig::default()`; the parsed `http://localhost:3000` has path "/". */
  function DefaultWebServer(): WebServerConfig {
    WebServerConfig("127.0.0.1", 3000, Urls.Url("http://localhost:3000", "/"),
                    Urls.Url("http://github.com", "/kokiriglade/mediaserver"))
  }

  /** How the server answers a request for a namespace directory. */
  datatype ListingMode = NoListing | DefaultRenderer | FancyRenderer

  /** The listing a namespace gets from its `FileListingConfig`. */
  function ListingModeOf(c: FileListingConfig): (m: ListingMode)
    ensures m == NoListing <==> !c.show
    ensures m == FancyRenderer <==> c.show && c.useFancyRenderer
  {
    if !c.show then NoListing
    else if c.useFancyRenderer then FancyRenderer
    else DefaultRenderer
  }

  /** `get_uploads_path`: the configured directory, as a path. */
  function UploadsPath(uploadsDirectory: string): string {
    uploadsDirectory
  }

  /** `get_temp_path`: the `.temp` directory inside the uploads directory. */
  function TempPath(uploadsDirectory: string): string {
    Join(UploadsPath(uploadsDirectory), ".temp")
  }

  /** `NamespaceDefinition::get_path`: the namespace's directory inside the uploads directory. */
  function NamespacePath(uploadsDirectory: string, fileSystemPath: string): string {
    Join(UploadsPath(uploadsDirectory), fileSystemPath)
  }

  /**
   * The temp directory and every namespace directory named by a plain name
   * sit directly inside the uploads directory, and a namespace directory is
   * the temp directory only when the namespace is named `.temp`.
   */
  lemma {:induction false} StorageLayout(uploadsDirectory: string, fileSystemPath: string)
    requires IsPlainName(fileSystemPath)
    ensures StripPrefix(TempPath(uploadsDirectory), UploadsPath(uploadsDirectory)) == Some(".temp")
    ensures StripPrefix(NamespacePath(uploadsDirectory, fileSystemPath), UploadsPath(uploadsDirectory)) == Some(fileSystemPath)
    ensures NamespacePath(uploadsDirectory, fileSystemPath) == TempPath(uploadsDirectory) <==> fileSystemPath == ".temp"
  {
    assert IsPlainName(".temp");
    StripPrefixOfJoin(uploadsDirectory, ".temp");
    StripPrefixOfJoin(uploadsDirectory, fileSystemPath);
    FileNameOfJoin(uploadsDirectory, ".temp");
    FileNameOfJoin(uploadsDirectory, fileSystemPath);
  }
}
