/** The repository walker (src/osvscanner/gitParser/gitParser.go): starting at
    the root, list a directory, download the files of it whose name has a
    registered parser, then walk its sub-directories; any error ends the whole
    walk with no files. The git service's listing is modelled as a tree of
    listings, one per directory, fixed in advance; the download is a function. */
module Walker {
  import opened Common
  import Extractor

  /** A listing entry or a downloaded file (go-github's RepositoryContent). */
  datatype Entry = Entry(name: string, path: string, typ: string, content: string)

  /** A directory at `path` and what the service answers when asked to list it. */
  datatype Folder = Folder(path: string, listing: Listing)

  /** The answer to a listing request: an error, or the files and the
      sub-directories of the directory, in the service's order. */
  datatype Listing =
    | Failed(error: string)
    | Listed(files: seq<Entry>, folders: seq<Folder>)

  /** What a git service provides: the listing of the repository root and
      the download of one listed file. */
  datatype Backend = Backend(root: Listing, download: Entry -> Result<Entry>)

  const UnsupportedService := "unsupported service"

  /** getFunctions: only "github" has a getter and a downloader. */
  function GetFunctions(service: string, github: Backend): (r: Result<Backend>)
    ensures r.Success? <==> service == "github"
    ensures r.Success? ==> r.value == github
    ensures r.Failure? ==> r.error == UnsupportedService
  {
    if service == "github" then Success(github) else Failure(UnsupportedService)
  }

  /** allowedFiles: the names registered with the extractor. */
  predicate Allowed(e: Entry) {
    e.name in Extractor.Parsers
  }

  lemma AllowedNames(e: Entry)
    ensures Allowed(e) <==> e.name == "package-lock.json" || e.name == "requirements.txt"
  {
  }

  // ---------------------------------------------------------------------------
  // The walk as a function of the tree

  /** Downloading the entries in order; the first error stops it. */
  function Downloads(es: seq<Entry>, download: Entry -> Result<Entry>): Result<seq<Entry>> {
    if es == [] then Success([])
    else
      match Downloads(es[..|es| - 1], download)
      case Failure(e) => Failure(e)
      case Success(done) =>
        match download(es[|es| - 1])
        case Failure(e) => Failure(e)
        case Success(file) => Success(done + [file])
  }

  /** recursiveParseDirs: this directory's allowed files, then every
      sub-directory's walk, in listing order. */
  function Walk(f: Folder, download: Entry -> Result<Entry>): Result<seq<Entry>>
    decreases f, 1
  {
    match f.listing
    case Failed(e) => Failure(e)
    case Listed(files, folders) =>
      match Downloads(Filter(files, Allowed), download)
      case Failure(e) => Failure(e)
      case Success(own) =>
        match WalkAll(f, |folders|, download)
        case Failure(e) => Failure(e)
        case Success(rest) => Success(own + rest)
  }

  /** The walks of the first `n` sub-directories of `f`, concatenated. */
  function WalkAll(f: Folder, n: nat, download: Entry -> Result<Entry>): Result<seq<Entry>>
    requires f.listing.Listed? && n <= |f.listing.folders|
    decreases f, 0, n
  {
    if n == 0 then Success([])
    else
      match WalkAll(f, n - 1, download)
      case Failure(e) => Failure(e)
      case Success(done) =>
        match Walk(f.listing.folders[n - 1], download)
        case Failure(e) => Failure(e)
        case Success(more) => Success(done + more)
  }

  /** The allowed files of the tree, in walk order: a directory's own files,
      then its sub-directories'. A directory that cannot be listed has none. */
  function Matching(f: Folder): seq<Entry>
    decreases f, 1
  {
    match f.listing
    case Failed(_) => []
    case Listed(files, folders) => Filter(files, Allowed) + MatchingAll(f, |folders|)
  }

  function MatchingAll(f: Folder, n: nat): seq<Entry>
    requires f.listing.Listed? && n <= |f.listing.folders|
    decreases f, 0, n
  {
    if n == 0 then [] else MatchingAll(f, n - 1) + Matching(f.listing.folders[n - 1])
  }

  /** Every directory of the tree can be listed. */
  predicate AllListed(f: Folder)
    decreases f, 1
  {
    f.listing.Listed? && AllListedUpTo(f, |f.listing.folders|)
  }

  predicate AllListedUpTo(f: Folder, n: nat)
    requires f.listing.Listed? && n <= |f.listing.folders|
    decreases f, 0, n
  {
    n == 0 || (AllListedUpTo(f, n - 1) && AllListed(f.listing.folders[n - 1]))
  }

  // ---------------------------------------------------------------------------
  // What the walk returns

  /** Downloading succeeds iff every download does, and then yields one file
      per entry, in order. */
  lemma {:induction false} DownloadsIff(es: seq<Entry>, download: Entry -> Result<Entry>)
    ensures Downloads(es, download).Success? <==> forall i :: 0 <= i < |es| ==> download(es[i]).Success?
    ensures Downloads(es, download).Success? ==>
      && |Downloads(es, download).value| == |es|
      && forall i :: 0 <= i < |es| ==> Downloads(es, download).value[i] == download(es[i]).value
  {
    if es != [] {
      DownloadsIff(es[..|es| - 1], download);
    }
  }

  /** Downloading a concatenation: the first part, then the second. */
  lemma {:induction false} DownloadsAppend(xs: seq<Entry>, ys: seq<Entry>, download: Entry -> Result<Entry>)
    ensures Downloads(xs + ys, download) ==
      match Downloads(xs, download)
      case Failure(e) => Failure(e)
      case Success(a) =>
        match Downloads(ys, download)
        case Failure(e) => Failure(e)
        case Success(b) => Success(a + b)
  {
    if ys != [] {
      assert (xs + ys)[..|xs + ys| - 1] == xs + ys[..|ys| - 1];
      DownloadsAppend(xs, ys[..|ys| - 1], download);
      match Downloads(xs, download)
      case Failure(_) =>
      case Success(a) =>
        match Downloads(ys[..|ys| - 1], download)
        case Failure(_) =>
        case Success(b) =>
          match download(ys[|ys| - 1])
          case Failure(_) =>
          case Success(file) =>
            assert a + b + [file] == a + (b + [file]);
    } else {
      assert xs + ys == xs;
      if Downloads(xs, download).Success? {
        assert Downloads(xs, download).value + [] == Downloads(xs, download).value;
      }
    }
  }

  /** When every directory can be listed, the walk is the in-order download
      of the allowed files of the tree. */
  lemma {:induction false} WalkDownloadsMatching(f: Folder, download: Entry -> Result<Entry>)
    requires AllListed(f)
    ensures Walk(f, download) == Downloads(Matching(f), download)
    decreases f, 1
  {
    WalkAllDownloadsMatching(f, |f.listing.folders|, download);
    DownloadsAppend(Filter(f.listing.files, Allowed), MatchingAll(f, |f.listing.folders|), download);
  }

  lemma {:induction false} WalkAllDownloadsMatching(f: Folder, n: nat, download: Entry -> Result<Entry>)
    requires f.listing.Listed? && n <= |f.listing.folders| && AllListedUpTo(f, n)
    ensures WalkAll(f, n, download) == Downloads(MatchingAll(f, n), download)
    decreases f, 0, n
  {
    if n > 0 {
      WalkAllDownloadsMatching(f, n - 1, download);
      WalkDownloadsMatching(f.listing.folders[n - 1], download);
      DownloadsAppend(MatchingAll(f, n - 1), Matching(f.listing.folders[n - 1]), download);
    }
  }

  /** A directory that cannot be listed fails the whole walk. */
  lemma {:induction false} UnlistedFails(f: Folder, download: Entry -> Result<Entry>)
    requires !AllListed(f)
    ensures Walk(f, download).Failure?
    decreases f, 1
  {
    if f.listing.Listed? {
      UnlistedAllFails(f, |f.listing.folders|, download);
    }
  }

  lemma {:induction false} UnlistedAllFails(f: Folder, n: nat, download: Entry -> Result<Entry>)
    requires f.listing.Listed? && n <= |f.listing.folders| && !AllListedUpTo(f, n)
    ensures WalkAll(f, n, download).Failure?
    decreases f, 0, n
  {
    if AllListedUpTo(f, n - 1) {
      UnlistedFails(f.listing.folders[n - 1], download);
    } else {
      UnlistedAllFails(f, n - 1, download);
    }
  }

  /** The walk succeeds iff every directory can be listed and every allowed
      file downloaded; it then holds one downloaded file per allowed file of
      the tree, in walk order. */
  lemma WalkResult(f: Folder, download: Entry -> Result<Entry>)
    ensures Walk(f, download).Success? <==>
      AllListed(f) && forall i :: 0 <= i < |Matching(f)| ==> download(Matching(f)[i]).Success?
    ensures Walk(f, download).Success? ==>
      && |Walk(f, download).value| == |Matching(f)|
      && forall i :: 0 <= i < |Matching(f)| ==> Walk(f, download).value[i] == download(Matching(f)[i]).value
  {
    if AllListed(f) {
      WalkDownloadsMatching(f, download);
      DownloadsIff(Matching(f), download);
    } else {
      UnlistedFails(f, download);
    }
  }

  /** Only files with a registered name are ever downloaded. */
  lemma {:induction false} MatchingAllowed(f: Folder)
    ensures forall e :: e in Matching(f) ==> Allowed(e)
    decreases f, 1
  {
    if f.listing.Listed? {
      FilterExactly(f.listing.files, Allowed);
      MatchingAllAllowed(f, |f.listing.folders|);
    }
  }

  lemma {:induction false} MatchingAllAllowed(f: Folder, n: nat)
    requires f.listing.Listed? && n <= |f.listing.folders|
    ensures forall e :: e in MatchingAll(f, n) ==> Allowed(e)
    decreases f, 0, n
  {
    if n > 0 {
      MatchingAllAllowed(f, n - 1);
      MatchingAllowed(f.listing.folders[n - 1]);
    }
  }

  // ---------------------------------------------------------------------------
  // The walk as the source performs it

  /** A failed prefix of the listing fails the downloads of the whole listing. */
  lemma DownloadsPrefixFails(entries: seq<Entry>, i: nat, download: Entry -> Result<Entry>)
    requires i <= |entries| && Downloads(Filter(entries[..i], Allowed), download).Failure?
    ensures Downloads(Filter(entries, Allowed), download) == Downloads(Filter(entries[..i], Allowed), download)
  {
    assert entries == entries[..i] + entries[i..];
    FilterAppend(entries[..i], entries[i..], Allowed);
    DownloadsAppend(Filter(entries[..i], Allowed), Filter(entries[i..], Allowed), download);
  }

  /** A failed sub-directory fails the walk of all of them. */
  lemma {:induction false} WalkAllFailureSticks(f: Folder, i: nat, n: nat, download: Entry -> Result<Entry>)
    requires f.listing.Listed? && i <= n <= |f.listing.folders| && WalkAll(f, i, download).Failure?
    ensures WalkAll(f, n, download) == WalkAll(f, i, download)
    decreases n
  {
    if n > i {
      WalkAllFailureSticks(f, i, n - 1, download);
    }
  }

  /** The first loop of recursiveParseDirs: download the allowed files of a
      listing in order; a failed download returns at once with no files. */
  method DownloadAllowed(entries: seq<Entry>, download: Entry -> Result<Entry>) returns (files: seq<Entry>, err: Option<string>)
    ensures err.None? <==> Downloads(Filter(entries, Allowed), download).Success?
    ensures err.None? ==> files == Downloads(Filter(entries, Allowed), download).value
    ensures err.Some? ==> files == [] && err.value == Downloads(Filter(entries, Allowed), download).error
  {
    files, err := [], None;
    for i := 0 to |entries|
      invariant Downloads(Filter(entries[..i], Allowed), download) == Success(files)
    {
      assert entries[..i + 1][..i] == entries[..i];
      if Allowed(entries[i]) {
        var file := download(entries[i]);
        if file.Failure? {
          DownloadsPrefixFails(entries, i + 1, download);
          return [], Some(file.error);
        }
        files := files + [file.value];
      }
    }
    assert entries[..|entries|] == entries;
  }

  /** recursiveParseDirs: the allowed files of the directory, then each
      sub-directory's walk appended in turn; an error returns at once with no
      files. */
  method RecursiveParseDirs(f: Folder, download: Entry -> Result<Entry>) returns (files: seq<Entry>, err: Option<string>)
    ensures err.None? <==> Walk(f, download).Success?
    ensures err.None? ==> files == Walk(f, download).value
    ensures err.Some? ==> files == [] && err.value == Walk(f, download).error
    decreases f, 1
  {
    if f.listing.Failed? {
      return [], Some(f.listing.error);
    }
    var folders := f.listing.folders;
    files, err := DownloadAllowed(f.listing.files, download);
    if err.Some? {
      return;
    }
    ghost var own := files;
    for i := 0 to |folders|
      invariant WalkAll(f, i, download).Success? && files == own + WalkAll(f, i, download).value
    {
      var childFiles, childErr := RecursiveParseDirs(folders[i], download);
      if childErr.Some? {
        WalkAllFailureSticks(f, i + 1, |folders|, download);
        return [], childErr;
      }
      files := files + childFiles;
    }
  }

  /** GetFilesFromRepository: pick the service's functions, then walk from the
      repository root "/". */
  method GetFilesFromRepository(service: string, github: Backend) returns (files: seq<Entry>, err: Option<string>)
    ensures service != "github" ==> files == [] && err == Some(UnsupportedService)
    ensures service == "github" ==>
      && (err.None? <==> Walk(Folder("/", github.root), github.download).Success?)
      && (err.None? ==> files == Walk(Folder("/", github.root), github.download).value)
      && (err.Some? ==> files == [] && err.value == Walk(Folder("/", github.root), github.download).error)
  {
    var backend := GetFunctions(service, github);
    if backend.Failure? {
      return [], Some(backend.error);
    }
    files, err := RecursiveParseDirs(Folder("/", backend.value.root), backend.value.download);
  }
}
