/** Configuration checking: the Config record and ValidateConfig in lib.go,
    which may add the PDF files of a directory to the list to process. */
module ConfigValidation {
  import opened Wrappers

  /** The command-line configuration; ValidateConfig appends to `pdfs`. */
  class Config {
    var pdfs: seq<string>
    var directory: string
    var whitelistDomains: seq<string>
    var blacklistDomains: seq<string>

    constructor (pdfs: seq<string>, directory: string,
                 whitelistDomains: seq<string>, blacklistDomains: seq<string>)
      ensures this.pdfs == pdfs && this.directory == directory
      ensures this.whitelistDomains == whitelistDomains && this.blacklistDomains == blacklistDomains
    {
      this.pdfs := pdfs;
      this.directory := directory;
      this.whitelistDomains := whitelistDomains;
      this.blacklistDomains := blacklistDomains;
    }
  }

  /** What filepath.Glob gives for the pattern "*.pdf" inside a directory:
      an error, or the matching paths (possibly none). */
  datatype DirListing = GlobFailed(cause: string) | Found(files: seq<string>)

  /** The three errors ValidateConfig can return. */
  datatype ConfigError =
    | NothingToProcess                              // "provide at least one PDF file or a directory ..."
    | DirectoryUnreadable(directory: string, cause: string)  // "getting PDFs from directory ..."
    | NoPdfsFound                                   // "no PDF files found"

  /** The error ValidateConfig returns, if any, and the `pdfs` it leaves. */
  datatype ConfigOutcome = ConfigOutcome(err: Option<ConfigError>, pdfs: seq<string>)

  /** getPDFsFromDirectory: the listing, with a failure wrapped in an error
      that names the directory. */
  function PdfsInDirectory(directory: string, glob: string -> DirListing): Result<seq<string>, ConfigError> {
    match glob(directory)
    case GlobFailed(cause) => Failure(DirectoryUnreadable(directory, cause))
    case Found(files) => Success(files)
  }

  /** ValidateConfig as written.  The final emptiness test reads the
      `pdfFiles` bound to the original list: the one assigned from the
      directory listing is a second variable, local to the `if` block. */
  function CheckConfig(pdfs: seq<string>, directory: string, glob: string -> DirListing): ConfigOutcome {
    if |pdfs| == 0 && directory == "" then ConfigOutcome(Some(NothingToProcess), pdfs)
    else
      var pdfFiles := pdfs;
      if directory != "" then
        match PdfsInDirectory(directory, glob)
        case Failure(e) => ConfigOutcome(Some(e), pdfs)
        case Success(found) => ConfigOutcome(if |pdfFiles| == 0 then Some(NoPdfsFound) else None, pdfs + found)
      else
        ConfigOutcome(if |pdfFiles| == 0 then Some(NoPdfsFound) else None, pdfs)
  }

  /** ValidateConfig, on the configuration object. */
  method ValidateConfig(config: Config, glob: string -> DirListing) returns (err: Option<ConfigError>)
    modifies config`pdfs
    ensures ConfigOutcome(err, config.pdfs) == CheckConfig(old(config.pdfs), config.directory, glob)
  {
    if |config.pdfs| == 0 && config.directory == "" {
      return Some(NothingToProcess);
    }

    var pdfFiles := config.pdfs;
    if config.directory != "" {
      var listing := PdfsInDirectory(config.directory, glob);
      if listing.Failure? {
        return Some(listing.error);
      }
      var pdfFiles := listing.value;
      config.pdfs := config.pdfs + pdfFiles;
    }

    if |pdfFiles| == 0 {
      return Some(NoPdfsFound);
    }
    return None;
  }

  /** With neither files nor a directory the configuration is refused and
      left as it was. */
  lemma EmptyConfigRefused(glob: string -> DirListing)
    ensures CheckConfig([], "", glob) == ConfigOutcome(Some(NothingToProcess), [])
  {
  }

  /** With a directory, a listing failure is returned naming the directory,
      and otherwise the files found are appended to `pdfs`. */
  lemma DirectoryFilesAppended(pdfs: seq<string>, directory: string, glob: string -> DirListing)
    requires directory != ""
    ensures glob(directory).GlobFailed? ==>
      CheckConfig(pdfs, directory, glob)
        == ConfigOutcome(Some(DirectoryUnreadable(directory, glob(directory).cause)), pdfs)
    ensures glob(directory).Found? ==>
      CheckConfig(pdfs, directory, glob).pdfs == pdfs + glob(directory).files
  {
  }

  /** The "no PDF files found" test looks at the list given on the command
      line, not at the directory listing: once the directory is read, the
      error is returned exactly when that list was empty, whatever was found. */
  lemma NoPdfsTestIgnoresListing(pdfs: seq<string>, directory: string, glob: string -> DirListing)
    requires directory != "" && glob(directory).Found?
    ensures CheckConfig(pdfs, directory, glob).err == Some(NoPdfsFound) <==> pdfs == []
    ensures pdfs != [] ==> CheckConfig(pdfs, directory, glob).err == None
  {
  }

  /** The consequence: a configuration that names only a directory is always
      refused, here with one PDF in it, which has been appended all the same. */
  lemma DirectoryOnlyRefused()
    ensures var outcome := CheckConfig([], "docs", _ => Found(["docs/a.pdf"]));
            outcome.err == Some(NoPdfsFound) && outcome.pdfs == ["docs/a.pdf"]
  {
  }

  /** ValidateConfig as evidently intended: the emptiness test reads the list
      after the directory's files have been added.  It accepts exactly the
      configurations that end up with at least one PDF and no listing error,
      and it leaves the same list as the code as written. */
  function IntendedCheckConfig(pdfs: seq<string>, directory: string, glob: string -> DirListing): (r: ConfigOutcome)
    ensures r.err == None <==> r.pdfs != [] && (directory != "" ==> glob(directory).Found?)
    ensures r.err == Some(NoPdfsFound) <==> directory != "" && glob(directory).Found? && r.pdfs == []
    ensures r.pdfs == CheckConfig(pdfs, directory, glob).pdfs
  {
    if |pdfs| == 0 && directory == "" then ConfigOutcome(Some(NothingToProcess), pdfs)
    else if directory != "" then
      match PdfsInDirectory(directory, glob)
      case Failure(e) => ConfigOutcome(Some(e), pdfs)
      case Success(found) =>
        var all := pdfs + found;
        ConfigOutcome(if |all| == 0 then Some(NoPdfsFound) else None, all)
    else ConfigOutcome(None, pdfs)
  }

  /** The written and the intended check disagree only on a configuration
      with no files of its own whose directory holds some PDFs. */
  lemma IntendedDiffersOnlyOnDirectoryOnly(pdfs: seq<string>, directory: string, glob: string -> DirListing)
    ensures IntendedCheckConfig(pdfs, directory, glob) != CheckConfig(pdfs, directory, glob)
        <==> pdfs == [] && directory != "" && glob(directory).Found? && glob(directory).files != []
  {
  }
}
