/** The records the parsers, the extractor and the scanner pass to each other
    (the `models` package's structs and the walker's `DepFile`). */
module Models {

  /** One dependency as a parser reports it. `commit` is non-empty when the
      version was a VCS locator; `depGroups` holds tags such as "dev",
      "optional" or the requirements file's base name. */
  datatype PackageDetails = PackageDetails(
    name: string,
    version: string,
    commit: string,
    ecosystem: string,
    compareAs: string,
    depGroups: seq<string>)

  /** A parsed manifest: where it came from, which parser read it, and its packages. */
  datatype Lockfile = Lockfile(filePath: string, parsedAs: string, packages: seq<PackageDetails>)

  /** A manifest as the repository walker delivers it: base name, path in the repository, text. */
  datatype DepFile = DepFile(name: string, path: string, content: string)

  const NpmEcosystem := "npm"
  const PipEcosystem := "PyPI"
}
