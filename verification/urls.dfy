/**
 * The URLs the installer builds and the guard on a URL typed by the user:
 * the project URL behind a "Download" button, the archive URL of the main
 * branch, and the check that refuses an empty entry or the placeholder text.
 */
module Urls {
  import opened Wrappers
  import opened Strings
  import opened RepoName

  /** The GitHub account whose projects are listed. */
  const Owner: string := "coltonsr77"

  /** The listing endpoint of the GitHub REST API for `Owner`. */
  const ApiBase: string := "https://api.github.com/users/" + Owner + "/repos"

  /** Appended to a repository URL to reach the zip of its `main` branch. */
  const ArchiveSuffix: string := "/archive/refs/heads/main.zip"

  /** What the URL entry holds before the user types anything. */
  const Placeholder: string := "Enter GitHub repository URL..."

  /** A lower-cased entry starting with this is taken to be the placeholder. */
  const PlaceholderPrefix: string := "enter github"

  /**
   * The URL of one of `Owner`'s projects: the GitHub prefix, the owner, a
   * `/`, and the name as the last part, unchanged.
   */
  function ProjectUrl(name: string): (url: string)
    ensures StartsWith(url, GithubPrefix + Owner + "/")
    ensures |url| == |GithubPrefix| + |Owner| + 1 + |name| && url[|url| - |name|..] == name
  {
    var url := GithubPrefix + Owner + "/" + name;
    assert url == (GithubPrefix + Owner + "/") + name;
    url
  }

  /**
   * The zip of the `main` branch: the repository URL as given, with the
   * suffix appended, so that the repository URL can be read back exactly.
   */
  function ArchiveUrl(repoUrl: string): (zipUrl: string)
    ensures StartsWith(zipUrl, repoUrl)
    ensures RepoOfArchive(zipUrl) == Some(repoUrl)
  {
    var z := repoUrl + ArchiveSuffix;
    assert z[|z| - |ArchiveSuffix|..] == ArchiveSuffix;
    assert z[..|z| - |ArchiveSuffix|] == repoUrl;
    z
  }

  /** The repository URL an archive URL was built from, if it was built by `ArchiveUrl`. */
  function RepoOfArchive(zipUrl: string): (r: Option<string>)
    ensures r.Some? ==> |r.value| + |ArchiveSuffix| == |zipUrl|
  {
    if |zipUrl| >= |ArchiveSuffix| && zipUrl[|zipUrl| - |ArchiveSuffix|..] == ArchiveSuffix then
      Some(zipUrl[..|zipUrl| - |ArchiveSuffix|])
    else
      None
  }

  /**
   * The entry check before a download from a typed URL: the stripped entry
   * is used, unless it is empty or reads like the placeholder (compared
   * without regard to case), in which case nothing is downloaded.
   */
  function UrlGuard(entry: string): (r: Option<string>)
    ensures r.Some? ==> r.value == Strip(entry) && r.value != []
  {
    var url := Strip(entry);
    if url == [] || StartsWith(Lower(url), PlaceholderPrefix) then None else Some(url)
  }

  /** Every URL `RepoOfArchive` accepts is the archive URL of what it returns. */
  lemma ArchiveOfRepo(zipUrl: string, repoUrl: string)
    requires RepoOfArchive(zipUrl) == Some(repoUrl)
    ensures ArchiveUrl(repoUrl) == zipUrl
  {
    assert zipUrl == zipUrl[..|zipUrl| - |ArchiveSuffix|] + zipUrl[|zipUrl| - |ArchiveSuffix|..];
  }

  /** Different repository URLs give different archive URLs; a trailing `/` or `.git` is kept. */
  lemma ArchiveInjective(u: string, v: string)
    requires ArchiveUrl(u) == ArchiveUrl(v)
    ensures u == v
  {
    assert RepoOfArchive(ArchiveUrl(u)) == Some(u);
  }

  /**
   * A project's button downloads the repository whose name is the project's
   * name with every `.git` removed, and exactly that name when it holds no `.git`.
   */
  lemma ProjectNameRoundTrip(name: string)
    requires name != [] && SlashFree(name)
    ensures GetRepoName(ProjectUrl(name)) == StripGit(name)
    ensures (forall p :: !GitAt(name, p)) ==> GetRepoName(ProjectUrl(name)) == name
  {
    NameOfGithubUrl(Owner, name);
    StripGitIdentity(name);
  }

  /** A project without a name gives `https://github.com/coltonsr77/`, which has no repository name. */
  lemma EmptyProjectNameFallback()
    ensures GetRepoName(ProjectUrl([])) == Fallback
  {
    OwnerOnlyFallback(Owner, "/");
    assert ProjectUrl([]) == GithubPrefix + Owner + "/";
  }

  /** The archive of a project names the same repository as the project URL itself. */
  lemma ArchiveKeepsProjectName(name: string)
    requires name != [] && SlashFree(name)
    ensures GetRepoName(ArchiveUrl(ProjectUrl(name))) == GetRepoName(ProjectUrl(name))
  {
    assert ArchiveUrl(ProjectUrl(name)) == GithubPrefix + Owner + "/" + name + ArchiveSuffix;
    NameIgnoresTrailingPath(Owner, name, ArchiveSuffix);
    NameOfGithubUrl(Owner, name);
  }

  /**
   * The name shown during a download comes from the URL the user gave, not
   * from the archive URL: an owner-only URL shows the fallback, while its
   * archive URL would read as a repository called `archive`.
   */
  lemma OwnerOnlyArchiveName(owner: string)
    requires owner != [] && SlashFree(owner)
    ensures GetRepoName(GithubPrefix + owner) == Fallback
    ensures GetRepoName(ArchiveUrl(GithubPrefix + owner)) == "archive"
  {
    OwnerOnlyFallback(owner, []);
    assert GithubPrefix + owner + [] == GithubPrefix + owner;
    var rest := ArchiveSuffixShape();
    assert ArchiveUrl(GithubPrefix + owner) == GithubPrefix + owner + "/" + "archive" + rest;
    NameIgnoresTrailingPath(owner, "archive", rest);
    ArchiveKeptWhole();
  }

  /** The archive suffix read as path segments: `archive` and then the rest. */
  lemma ArchiveSuffixShape() returns (rest: string)
    ensures ArchiveSuffix == "/" + "archive" + rest && rest != [] && rest[0] == '/'
    ensures SlashFree("archive")
  {
    rest := "/refs/heads/main.zip";
  }

  lemma ArchiveKeptWhole()
    ensures StripGit("archive") == "archive"
  {
    var w := "archive";
    assert forall x | 0 <= x < |w| :: w[x] != '.';
    StripGitNoDot(w);
  }

  /** The placeholder text is refused, however much whitespace surrounds it. */
  lemma GuardRejectsPlaceholder(p: string, q: string)
    requires AllSpace(p) && AllSpace(q)
    ensures UrlGuard(p + Placeholder + q) == None
  {
    PlaceholderShape();
    StripPadded(p, Placeholder, q);
  }

  /** The placeholder has no surrounding whitespace, and lower-cased it starts with `enter github`. */
  lemma PlaceholderShape()
    ensures Placeholder != [] && !IsSpace(Placeholder[0]) && !IsSpace(Placeholder[|Placeholder| - 1])
    ensures StartsWith(Lower(Placeholder), PlaceholderPrefix)
  {
    assert Lower(Placeholder)[..|PlaceholderPrefix|] == PlaceholderPrefix;
  }

  /**
   * The guard's verdict, character by character: an entry is refused
   * exactly when it strips to nothing or its stripped text starts with
   * `enter github` in any mixture of upper and lower case.
   */
  lemma GuardRefusesIff(entry: string)
    ensures UrlGuard(entry).None? <==>
      || Strip(entry) == []
      || (|Strip(entry)| >= |PlaceholderPrefix|
          && forall i | 0 <= i < |PlaceholderPrefix| :: SameLetter(Strip(entry)[i], PlaceholderPrefix[i]))
  {
    PrefixHasNoCapitals();
    StartsWithLowerIff(Strip(entry), PlaceholderPrefix);
  }

  lemma PrefixHasNoCapitals()
    ensures forall i | 0 <= i < |PlaceholderPrefix| :: !('A' <= PlaceholderPrefix[i] <= 'Z')
  {
    var p := PlaceholderPrefix;
    assert forall i | 0 <= i < |p| :: p[i] == ' ' || 'a' <= p[i] <= 'z';
  }

  /** An entry that strips to nothing is refused. */
  lemma GuardRejectsBlank(entry: string)
    requires AllSpace(entry)
    ensures UrlGuard(entry) == None
  {
    StripIsTrim(entry);
  }

  /**
   * Any other text is passed on exactly as typed, minus the surrounding
   * whitespace: the guard neither repairs nor normalises a URL.
   */
  lemma GuardAcceptsOtherText(p: string, url: string, q: string)
    requires AllSpace(p) && AllSpace(q)
    requires url != [] && !IsSpace(url[0]) && !IsSpace(url[|url| - 1])
    requires !StartsWith(Lower(url), PlaceholderPrefix)
    ensures UrlGuard(p + url + q) == Some(url)
  {
    StripPadded(p, url, q);
  }

  /** Whatever the guard passes on is already stripped, so passing it through again changes nothing. */
  lemma GuardIdempotent(entry: string)
    requires UrlGuard(entry).Some?
    ensures UrlGuard(UrlGuard(entry).value) == UrlGuard(entry)
  {
    StripIdempotent(entry);
  }

  /** Only the letters' case is ignored: an entry differing from another only in case gets the same verdict. */
  lemma GuardIgnoresCase(a: string, b: string)
    requires Lower(Strip(a)) == Lower(Strip(b))
    ensures UrlGuard(a).None? <==> UrlGuard(b).None?
  {
  }

  /** A project URL written into the entry is accepted unchanged. */
  lemma GuardAcceptsProjectUrl(name: string)
    requires name != [] && !IsSpace(name[|name| - 1])
    ensures UrlGuard(ProjectUrl(name)) == Some(ProjectUrl(name))
  {
    var u := ProjectUrl(name);
    assert u[0] == 'h';
    assert u[|u| - 1] == name[|name| - 1];
    assert Lower(u)[0] == 'h';
    GuardAcceptsOtherText([], u, []);
    assert [] + u + [] == u;
  }
}
