/**
 * `generate_github_file_url`, `generate_github_raw_url` and
 * `generate_github_pages_url`. The repository URL (the `GITHUB_REPO_URL`
 * setting, `""` when unset) and the cache-busting timestamp are parameters.
 */
module GitHubUrls {
  import opened PyStrings
  import opened Chat

  const GitSuffix: string := ".git"
  const GitHubPrefix: string := "https://github.com/"
  const GitHubHost: string := "github.com"

  /** The repository URL with one trailing ".git" removed. */
  function DropGitSuffix(repoUrl: string): string {
    if EndsWith(repoUrl, GitSuffix) then repoUrl[..|repoUrl| - |GitSuffix|] else repoUrl
  }

  /**
   * "github.com" never overlaps a trailing ".git": its last character is
   * an `m`, which ".git" does not hold. So the host test gives the same
   * answer before and after the suffix is removed.
   */
  lemma HostSurvivesSuffix(repoUrl: string)
    ensures Contains(DropGitSuffix(repoUrl), GitHubHost) <==> Contains(repoUrl, GitHubHost)
  {
    var web := DropGitSuffix(repoUrl);
    if Contains(web, GitHubHost) {
      assert repoUrl[0..|web|] == web;
      ContainsInSlice(repoUrl, 0, |web|, GitHubHost);
    }
    if Contains(repoUrl, GitHubHost) && EndsWith(repoUrl, GitSuffix) {
      var k: nat :| k + |GitHubHost| <= |repoUrl| && OccursAt(repoUrl, GitHubHost, k);
      var cut := |repoUrl| - |GitSuffix|;
      assert repoUrl[k..k + |GitHubHost|][9] == 'm';
      forall p | cut <= p < |repoUrl| ensures repoUrl[p] != 'm' {
        assert repoUrl[cut..][p - cut] == repoUrl[p];
      }
      assert k + |GitHubHost| <= cut;
      SliceOfSlice(repoUrl, 0, cut, k, k + |GitHubHost|);
      assert OccursAt(web, GitHubHost, k);
    }
  }

  /**
   * The web address of the repository: the setting without a trailing
   * ".git", present exactly when the setting is non-empty and names
   * "github.com".
   */
  function WebUrl(repoUrl: string): (web: Option<string>)
    ensures web.Some? <==> repoUrl != "" && Contains(repoUrl, GitHubHost)
    ensures web.Some? ==> web.value == DropGitSuffix(repoUrl)
  {
    HostSurvivesSuffix(repoUrl);
    if repoUrl == "" then None
    else if Contains(DropGitSuffix(repoUrl), GitHubHost) then Some(DropGitSuffix(repoUrl))
    else None
  }

  /**
   * `generate_github_file_url(filename, branch)`: for exactly the non-empty
   * settings that name "github.com", the file's page on the branch.
   */
  function GitHubFileUrl(repoUrl: string, filename: string, branch: string): (url: Option<string>)
    ensures url.Some? <==> repoUrl != "" && Contains(repoUrl, GitHubHost)
    ensures url.Some? ==> url.value == DropGitSuffix(repoUrl) + "/blob/" + branch + "/" + filename
  {
    match WebUrl(repoUrl)
    case None => None
    case Some(web) => Some(web + "/blob/" + branch + "/" + filename)
  }

  /**
   * `generate_github_raw_url(filename, branch)`: for exactly the non-empty
   * settings that name "github.com", the file's raw download on the branch.
   */
  function GitHubRawUrl(repoUrl: string, filename: string, branch: string): (url: Option<string>)
    ensures url.Some? <==> repoUrl != "" && Contains(repoUrl, GitHubHost)
    ensures url.Some? ==> url.value == DropGitSuffix(repoUrl) + "/raw/" + branch + "/" + filename
  {
    match WebUrl(repoUrl)
    case None => None
    case Some(web) => Some(web + "/raw/" + branch + "/" + filename)
  }

  /** The `?v=` query the Pages URL ends with. */
  function CacheQuery(filename: string, cacheBuster: nat): string {
    "/" + filename + "?v=" + Decimal(cacheBuster)
  }

  /** `web_url.replace("https://github.com/", "").split("/")`. */
  function AddressParts(web: string): seq<string> {
    Split(ReplaceAll(web, GitHubPrefix, ""), '/')
  }

  /**
   * `generate_github_pages_url(filename, branch)`; `branch` is not used.
   * `cacheBuster` stands for `int(time.time())`. A Pages URL needs a
   * GitHub setting; it is served from "https://" and ends with the file
   * and the cache-busting query.
   */
  function GitHubPagesUrl(repoUrl: string, filename: string, branch: string, cacheBuster: nat): (url: Option<string>)
    ensures url.Some? ==> repoUrl != "" && Contains(repoUrl, GitHubHost)
    ensures url.Some? ==> StartsWith(url.value, "https://")
    ensures url.Some? ==> EndsWith(url.value, CacheQuery(filename, cacheBuster))
    ensures WebUrl(repoUrl).Some? ==> (url.Some? <==> |AddressParts(WebUrl(repoUrl).value)| >= 2)
  {
    match WebUrl(repoUrl)
    case None => None
    case Some(web) =>
      var parts := AddressParts(web);
      if |parts| >= 2 then
        var host := "https://" + parts[0] + ".github.io/" + parts[1];
        EndsWithConcat(host, CacheQuery(filename, cacheBuster));
        assert (host + CacheQuery(filename, cacheBuster))[..|"https://"|] == "https://";
        Some(host + CacheQuery(filename, cacheBuster))
      else None
  }

  // ---------------------------------------------------------------------

  lemma HostInPrefix(rest: string)
    ensures Contains(GitHubPrefix + rest, GitHubHost)
  {
    assert (GitHubPrefix + rest)[8..18] == GitHubHost;
    assert OccursAt(GitHubPrefix + rest, GitHubHost, 8);
  }

  /**
   * For the repository address `https://github.com/<owner>/<repo>`, written
   * with or without ".git", the file and raw URLs point into that
   * repository at the given branch and file.
   */
  lemma FileAndRawUrlsOfRepository(path: string, filename: string, branch: string)
    requires !EndsWith(GitHubPrefix + path, GitSuffix)
    ensures var address := GitHubPrefix + path;
      && GitHubFileUrl(address, filename, branch) == Some(address + "/blob/" + branch + "/" + filename)
      && GitHubFileUrl(address + GitSuffix, filename, branch) == Some(address + "/blob/" + branch + "/" + filename)
      && GitHubRawUrl(address, filename, branch) == Some(address + "/raw/" + branch + "/" + filename)
      && GitHubRawUrl(address + GitSuffix, filename, branch) == Some(address + "/raw/" + branch + "/" + filename)
  {
    var address := GitHubPrefix + path;
    HostInPrefix(path);
    assert (address + GitSuffix)[..|address + GitSuffix| - |GitSuffix|] == address;
  }

  /** In `owner + "/" + repo`, with no slash in either, the only slash is the one between them. */
  lemma OneSlash(owner: string, repo: string)
    requires NoChar(owner, '/') && NoChar(repo, '/')
    ensures forall k :: 0 <= k < |owner + "/" + repo| && (owner + "/" + repo)[k] == '/' ==> k == |owner|
  {
  }

  lemma NoPrefixInOwnerRepo(owner: string, repo: string)
    requires NoChar(owner, '/') && NoChar(repo, '/')
    ensures !Contains(owner + "/" + repo, GitHubPrefix)
  {
    var rest := owner + "/" + repo;
    OneSlash(owner, repo);
    forall k: nat | k + |GitHubPrefix| <= |rest| ensures !OccursAt(rest, GitHubPrefix, k) {
      assert rest[k + 6] != '/' || rest[k + 7] != '/';
      assert rest[k..k + |GitHubPrefix|][6] == rest[k + 6];
      assert rest[k..k + |GitHubPrefix|][7] == rest[k + 7];
    }
  }

  /** `https://github.com/<owner>/<repo>` never ends in ".git" when `repo` does not. */
  lemma AddressKeepsRepo(owner: string, repo: string)
    requires NoChar(owner, '/') && NoChar(repo, '/') && !EndsWith(repo, GitSuffix)
    ensures !EndsWith(GitHubPrefix + owner + "/" + repo, GitSuffix)
  {
    var url := GitHubPrefix + owner + "/" + repo;
    var tail := url[|url| - |GitSuffix|..];
    if |repo| >= |GitSuffix| {
      assert tail == repo[|repo| - |GitSuffix|..];
    } else {
      assert tail[|GitSuffix| - 1 - |repo|] == '/';
    }
  }

  /**
   * The Pages URL of a GitHub setting whose address, less the
   * "https://github.com/" prefix, splits into at least two parts: owner
   * and repository are the first two, whatever follows them.
   */
  lemma PagesUrlFromParts(repoUrl: string, filename: string, branch: string, cacheBuster: nat)
    requires WebUrl(repoUrl).Some? && |AddressParts(WebUrl(repoUrl).value)| >= 2
    ensures var parts := AddressParts(WebUrl(repoUrl).value);
      GitHubPagesUrl(repoUrl, filename, branch, cacheBuster)
        == Some("https://" + parts[0] + ".github.io/" + parts[1] + "/" + filename + "?v=" + Decimal(cacheBuster))
  {
    var parts := AddressParts(WebUrl(repoUrl).value);
    assert "https://" + parts[0] + ".github.io/" + parts[1] + CacheQuery(filename, cacheBuster)
        == "https://" + parts[0] + ".github.io/" + parts[1] + "/" + filename + "?v=" + Decimal(cacheBuster);
  }


  /**
   * For `https://github.com/<owner>/<repo>` or the same with ".git", where
   * neither part holds a slash, the Pages URL is
   * `https://<owner>.github.io/<repo>/<filename>?v=<timestamp>`.
   */
  lemma PagesUrlOfRepository(owner: string, repo: string, withGit: bool, filename: string, branch: string, cacheBuster: nat)
    requires NoChar(owner, '/') && NoChar(repo, '/')
    requires !withGit ==> !EndsWith(repo, GitSuffix)
    ensures GitHubPagesUrl(GitHubPrefix + owner + "/" + repo + (if withGit then GitSuffix else ""), filename, branch, cacheBuster)
         == Some("https://" + owner + ".github.io/" + repo + "/" + filename + "?v=" + Decimal(cacheBuster))
  {
    var rest := owner + "/" + repo;
    var address := GitHubPrefix + rest;
    assert GitHubPrefix + owner + "/" + repo == address;
    var url := address + (if withGit then GitSuffix else "");
    if withGit {
      assert url[..|url| - |GitSuffix|] == address;
    } else {
      AddressKeepsRepo(owner, repo);
      assert url == address;
    }
    assert DropGitSuffix(url) == address;
    HostInPrefix(rest);
    assert WebUrl(url) == Some(address);
    assert address[..|GitHubPrefix|] == GitHubPrefix && address[|GitHubPrefix|..] == rest;
    NoPrefixInOwnerRepo(owner, repo);
    ReplaceAbsent(rest, GitHubPrefix, "");
    assert ReplaceAll(address, GitHubPrefix, "") == rest;
    SplitAtFirstSeparator(owner, repo, '/');
    SplitWithoutSeparator(repo, '/');
    assert owner + "/" + repo == owner + ['/'] + repo;
    assert Split(rest, '/') == [owner, repo];
    PagesUrlFromParts(url, filename, branch, cacheBuster);
  }

  /** A GitHub address with no slash after the prefix (`https://github.com/<owner>`) has no Pages URL. */
  lemma PagesUrlNeedsOwnerAndRepo(owner: string, filename: string, branch: string, cacheBuster: nat)
    requires NoChar(owner, '/') && !EndsWith(GitHubPrefix + owner, GitSuffix)
    ensures GitHubPagesUrl(GitHubPrefix + owner, filename, branch, cacheBuster).None?
    ensures GitHubFileUrl(GitHubPrefix + owner, filename, branch).Some?
  {
    var address := GitHubPrefix + owner;
    HostInPrefix(owner);
    assert WebUrl(address) == Some(address);
    assert address[..|GitHubPrefix|] == GitHubPrefix && address[|GitHubPrefix|..] == owner;
    forall k: nat | k + |GitHubPrefix| <= |owner| ensures !OccursAt(owner, GitHubPrefix, k) {
      assert owner[k..k + |GitHubPrefix|][6] == owner[k + 6];
    }
    ReplaceAbsent(owner, GitHubPrefix, "");
    assert ReplaceAll(address, GitHubPrefix, "") == owner;
    SplitWithoutSeparator(owner, '/');
  }
}
