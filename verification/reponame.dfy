/**
 * The display name of a repository, derived from a URL the way
 * `get_repo_name` does: the first capture group of the leftmost match of
 * the regular expression `github\.com/[^/]+/([^/]+)`, with every `.git`
 * removed, or `"repository"` when nothing matches.
 */
module RepoName {
  import opened Wrappers

  /** The length of `github.com/`, the literal the pattern starts with. */
  const HostLength: nat := 11

  /** The fallback name when the URL has no match. */
  const Fallback: string := "repository"

  predicate SlashFree(s: string) {
    forall x | 0 <= x < |s| :: s[x] != '/'
  }

  /** No `/` in `s[a..b]`. */
  ghost predicate SlashFreeRange(s: string, a: int, b: int)
    requires 0 <= a <= b <= |s|
  {
    forall x | a <= x < b :: s[x] != '/'
  }

  /** `s[i..i + 11] == "github.com/"`, compared character by character (case-sensitive). */
  predicate HostAt(s: string, i: int) {
    && 0 <= i && i + HostLength <= |s|
    && s[i] == 'g' && s[i + 1] == 'i' && s[i + 2] == 't' && s[i + 3] == 'h'
    && s[i + 4] == 'u' && s[i + 5] == 'b' && s[i + 6] == '.' && s[i + 7] == 'c'
    && s[i + 8] == 'o' && s[i + 9] == 'm' && s[i + 10] == '/'
  }

  /**
   * The pattern matches `s[i..k]` with the owner `s[i + 11..j]`, a `/` at
   * `j` and the (group 1) name `s[j + 1..k]`, both segments non-empty and
   * slash-free.
   */
  ghost predicate MatchSpan(s: string, i: int, j: int, k: int) {
    && 0 <= i && i + HostLength < j && j + 1 < k <= |s|
    && HostAt(s, i)
    && SlashFreeRange(s, i + HostLength, j)
    && s[j] == '/'
    && SlashFreeRange(s, j + 1, k)
  }

  /**
   * What `re.search` reports: the leftmost match, whose greedy group 1 runs
   * up to the next `/` or the end of `s`.
   */
  ghost predicate FirstMatch(s: string, i: int, j: int, k: int) {
    && MatchSpan(s, i, j, k)
    && (k == |s| || s[k] == '/')
    && forall i', j', k' :: 0 <= i' < i ==> !MatchSpan(s, i', j', k')
  }

  /** Where the pattern matched: start, position of the `/` after the owner, end of the name. */
  datatype Match = Match(start: nat, ownerEnd: nat, nameEnd: nat)

  /** The length of the longest slash-free run of `s` starting at `p` (what `[^/]+` consumes). */
  function Run(s: string, p: nat): (n: nat)
    requires p <= |s|
    ensures p + n <= |s|
    ensures SlashFreeRange(s, p, p + n)
    ensures p + n == |s| || s[p + n] == '/'
    decreases |s| - p
  {
    if p == |s| || s[p] == '/' then 0 else 1 + Run(s, p + 1)
  }

  /**
   * A slash-free run that stops at a `/` (or the end) is the longest one:
   * no slash-free range from the same start reaches past it.
   */
  lemma RunBound(s: string, o: int, j: int, j': int)
    requires 0 <= o <= j <= |s| && o <= j' <= |s|
    requires SlashFreeRange(s, o, j) && (j == |s| || s[j] == '/')
    requires SlashFreeRange(s, o, j')
    ensures j' <= j
  {
  }

  /** Tries the pattern at position `i` only, as the regex engine does before moving on. */
  function MatchAt(s: string, i: nat): (r: Option<Match>)
    requires i <= |s|
    ensures r.Some? ==> r.value.start == i && MatchSpan(s, i, r.value.ownerEnd, r.value.nameEnd)
    ensures r.Some? ==> r.value.nameEnd == |s| || s[r.value.nameEnd] == '/'
    ensures r.Some? ==> forall j, k :: MatchSpan(s, i, j, k) ==> j == r.value.ownerEnd && k <= r.value.nameEnd
    ensures r.None? <==> forall j, k :: !MatchSpan(s, i, j, k)
  {
    if HostAt(s, i) then
      var o := i + HostLength;
      var j := o + Run(s, o);
      // the owner is the whole slash-free run after the host
      assert forall j', k' :: MatchSpan(s, i, j', k') ==> j' == j by {
        forall j', k' | MatchSpan(s, i, j', k') ensures j' == j {
          RunBound(s, o, j, j');
          RunBound(s, o, j', j);
        }
      }
      if j == o || j == |s| then
        None
      else
        var k := j + 1 + Run(s, j + 1);
        // the name is the whole slash-free run after the owner's slash
        assert forall j', k' :: MatchSpan(s, i, j', k') ==> k' <= k by {
          forall j', k' | MatchSpan(s, i, j', k') ensures k' <= k {
            RunBound(s, j + 1, k, k');
          }
        }
        if k == j + 1 then
          None
        else
          assert MatchSpan(s, i, j, k);
          Some(Match(i, j, k))
    else
      None
  }

  /** `re.search`: the first position from `i` on where the pattern matches. */
  function Search(s: string, i: nat): (r: Option<Match>)
    requires i <= |s|
    ensures r.None? <==> forall i', j, k :: i <= i' ==> !MatchSpan(s, i', j, k)
    ensures r.Some? ==> i <= r.value.start && MatchSpan(s, r.value.start, r.value.ownerEnd, r.value.nameEnd)
    ensures r.Some? ==> r.value.nameEnd == |s| || s[r.value.nameEnd] == '/'
    ensures r.Some? ==> forall i', j, k :: i <= i' < r.value.start ==> !MatchSpan(s, i', j, k)
    decreases |s| - i
  {
    match MatchAt(s, i)
    case Some(m) => Some(m)
    case None =>
      if i == |s| then
        None
      else
        var r := Search(s, i + 1);
        assert forall i', j, k :: i <= i' <= i ==> !MatchSpan(s, i', j, k);
        r
  }

  /** `s[p..p + 4] == ".git"`. */
  predicate GitAt(s: string, p: int) {
    0 <= p && p + 4 <= |s| && s[p] == '.' && s[p + 1] == 'g' && s[p + 2] == 'i' && s[p + 3] == 't'
  }

  /**
   * Python `s.replace(".git", "")`: one left-to-right pass that removes every
   * non-overlapping occurrence.
   */
  function StripGit(s: string): (r: string)
    ensures |r| <= |s|
    ensures SlashFree(s) ==> SlashFree(r)
  {
    if |s| < 4 then s
    else
      var found := GitAt(s, 0);
      (if found then [] else [s[0]]) + StripGit(s[if found then 4 else 1..])
  }

  /** An occurrence of `.git` always shortens the string. */
  lemma {:induction false} StripGitShortens(s: string, p: int)
    requires GitAt(s, p)
    ensures |StripGit(s)| < |s|
    decreases |s|
  {
    if !GitAt(s, 0) {
      assert GitAt(s[1..], p - 1);
      StripGitShortens(s[1..], p - 1);
    }
  }

  /** The replacement is the identity exactly on strings that do not contain `.git`. */
  lemma {:induction false} StripGitIdentity(s: string)
    ensures (forall p :: !GitAt(s, p)) <==> StripGit(s) == s
    decreases |s|
  {
    if forall p :: !GitAt(s, p) {
      if |s| >= 4 {
        assert !GitAt(s, 0);
        forall p ensures !GitAt(s[1..], p) {
          assert !GitAt(s, p + 1);
        }
        StripGitIdentity(s[1..]);
      }
    } else {
      var p :| GitAt(s, p);
      StripGitShortens(s, p);
    }
  }

  /** `re.search` reports the leftmost greedy match, whichever one that is. */
  lemma SearchFindsFirstMatch(url: string, i: int, j: int, k: int)
    requires FirstMatch(url, i, j, k)
    ensures Search(url, 0) == Some(Match(i, j, k))
  {
    var r := Search(url, 0);
    assert MatchSpan(url, i, j, k);
    assert r.Some?;
    var m := r.value;
    assert i >= m.start;
    assert MatchSpan(url, m.start, m.ownerEnd, m.nameEnd);
    assert m.start >= i;
    var at := MatchAt(url, i);
    assert j == at.value.ownerEnd;
    assert m.ownerEnd == at.value.ownerEnd;
    RunBound(url, j + 1, k, m.nameEnd);
    RunBound(url, j + 1, m.nameEnd, k);
  }

  lemma FallbackSlashFree()
    ensures SlashFree(Fallback)
  {
    var f := Fallback;
    assert forall x | 0 <= x < |f| :: f[x] != '/';
  }

  /**
   * `get_repo_name`: the leftmost match's name with every `.git` removed, or
   * `"repository"` when the URL does not match.
   */
  function GetRepoName(url: string): (name: string)
    ensures (forall i, j, k :: !MatchSpan(url, i, j, k)) ==> name == Fallback
    ensures forall i, j, k :: FirstMatch(url, i, j, k) ==> name == StripGit(url[j + 1..k])
    ensures SlashFree(name)
  {
    match Search(url, 0)
    case None =>
      FallbackSlashFree();
      Fallback
    case Some(m) =>
      var n := url[m.ownerEnd + 1..m.nameEnd];
      assert SlashFree(n) by {
        forall x | 0 <= x < |n| ensures n[x] != '/' {
          assert n[x] == url[m.ownerEnd + 1 + x];
        }
      }
      assert forall i, j, k :: FirstMatch(url, i, j, k) ==> n == url[j + 1..k] by {
        forall i, j, k | FirstMatch(url, i, j, k) ensures n == url[j + 1..k] {
          SearchFindsFirstMatch(url, i, j, k);
        }
      }
      StripGit(n)
  }

  /** The scheme and host every project URL starts with. */
  const GithubPrefix: string := "https://github.com/"

  /** No match can start inside the `https://` scheme: none of its characters is a `g`. */
  lemma NoMatchInScheme(url: string)
    requires |url| >= |GithubPrefix| && url[..|GithubPrefix|] == GithubPrefix
    ensures forall i, j, k :: 0 <= i < 8 ==> !MatchSpan(url, i, j, k)
  {
    assert GithubPrefix[..8] == "https://";
    assert 'g' !in "https://";
    forall i, j, k | 0 <= i < 8 ensures !MatchSpan(url, i, j, k) {
      assert url[i] == GithubPrefix[..8][i];
      assert url[i] != 'g';
    }
  }

  /** In `https://github.com/<owner>/<n><rest>` the leftmost match captures exactly `n`. */
  lemma GithubUrlFirstMatch(owner: string, n: string, rest: string)
    requires owner != [] && SlashFree(owner) && n != [] && SlashFree(n)
    requires rest == [] || rest[0] == '/'
    ensures var url := GithubPrefix + owner + "/" + n + rest;
      var j := |GithubPrefix| + |owner|;
      FirstMatch(url, 8, j, j + 1 + |n|) && url[j + 1..j + 1 + |n|] == n
  {
    var tail := owner + "/" + n + rest;
    var url := GithubPrefix + tail;
    assert url == GithubPrefix + owner + "/" + n + rest;
    var j := |GithubPrefix| + |owner|;
    var k := j + 1 + |n|;
    assert url[..|GithubPrefix|] == GithubPrefix;
    assert HostAt(url, 8) by {
      assert url[8..|GithubPrefix|] == GithubPrefix[8..] == "github.com/";
    }
    forall x | |GithubPrefix| <= x < j ensures url[x] != '/' {
      assert url[x] == owner[x - |GithubPrefix|];
    }
    assert url[j] == '/';
    forall x | j + 1 <= x < k ensures url[x] != '/' {
      assert url[x] == n[x - j - 1];
    }
    assert url[j + 1..k] == n;
    assert k < |url| ==> url[k] == rest[0];
    assert MatchSpan(url, 8, j, k);
    NoMatchInScheme(url);
  }

  /** The name of `https://github.com/<owner>/<n>` is `n` with every `.git` removed. */
  lemma NameOfGithubUrl(owner: string, n: string)
    requires owner != [] && SlashFree(owner) && n != [] && SlashFree(n)
    ensures GetRepoName(GithubPrefix + owner + "/" + n) == StripGit(n)
  {
    GithubUrlFirstMatch(owner, n, []);
    assert GithubPrefix + owner + "/" + n + [] == GithubPrefix + owner + "/" + n;
  }

  /** Path segments after the name do not change it. */
  lemma NameIgnoresTrailingPath(owner: string, n: string, rest: string)
    requires owner != [] && SlashFree(owner) && n != [] && SlashFree(n)
    requires rest != [] && rest[0] == '/'
    ensures GetRepoName(GithubPrefix + owner + "/" + n + rest) == StripGit(n)
  {
    GithubUrlFirstMatch(owner, n, rest);
  }

  /** A character other than `.` never starts an occurrence, so it is kept. */
  lemma StripGitKeeps(c: char, s: string)
    requires c != '.'
    ensures StripGit([c] + s) == [c] + StripGit(s)
  {
    var t := [c] + s;
    if |t| >= 4 {
      assert t[1..] == s;
    } else {
      assert StripGit(s) == s;
    }
  }

  /** A leading `.git` is dropped. */
  lemma StripGitDrops(s: string)
    ensures StripGit(".git" + s) == StripGit(s)
  {
    var t := ".git" + s;
    assert t[4..] == s;
  }

  /** A prefix without any `.` passes through unchanged. */
  lemma {:induction false} StripGitKeepsPrefix(a: string, b: string)
    requires '.' !in a
    ensures StripGit(a + b) == a + StripGit(b)
    decreases |a|
  {
    if a != [] {
      assert a == [a[0]] + a[1..];
      assert '.' !in a[1..];
      assert a + b == [a[0]] + (a[1..] + b);
      StripGitKeeps(a[0], a[1..] + b);
      StripGitKeepsPrefix(a[1..], b);
      assert [a[0]] + (a[1..] + StripGit(b)) == a + StripGit(b);
    } else {
      assert a + b == b;
    }
  }

  /** A string without a `.` has nothing to remove. */
  lemma StripGitNoDot(s: string)
    requires '.' !in s
    ensures StripGit(s) == s
  {
    StripGitKeepsPrefix(s, []);
    assert s + [] == s;
  }

  /**
   * Every occurrence is removed, wherever it stands: the text on either side
   * of a `.git` is processed as if the other were not there, since the `.`
   * of the occurrence cannot end an earlier `.git`.
   */
  lemma {:induction false} StripGitSplits(a: string, b: string)
    ensures StripGit(a + ".git" + b) == StripGit(a) + StripGit(b)
    decreases |a|
  {
    var s := a + ".git" + b;
    if a == [] {
      assert s == ".git" + b;
      StripGitDrops(b);
    } else if |a| >= 4 && GitAt(a, 0) {
      assert GitAt(s, 0);
      assert s[4..] == a[4..] + ".git" + b;
      StripGitSplits(a[4..], b);
    } else {
      assert !GitAt(s, 0) by {
        if |a| < 4 { assert s[|a|] == '.'; }
      }
      assert s[1..] == a[1..] + ".git" + b;
      StripGitSkips(s);
      StripGitSplits(a[1..], b);
      if |a| >= 4 {
        StripGitSkips(a);
      } else {
        assert StripGit(a[1..]) == a[1..];
        assert [a[0]] + a[1..] == a;
      }
    }
  }

  /**
   * An occurrence in the middle is removed too, not only a suffix, and the
   * scan carries on behind it: text in front that holds no `.git` is kept.
   */
  lemma StripGitRemovesOccurrence(a: string, b: string)
    requires forall p :: !GitAt(a, p)
    ensures StripGit(a + ".git" + b) == a + StripGit(b)
  {
    StripGitSplits(a, b);
    StripGitIdentity(a);
  }

  /** The name of a project URL loses every `.git`, wherever it stands in the name. */
  lemma NameLosesGit(owner: string, a: string, b: string)
    requires owner != [] && SlashFree(owner)
    requires SlashFree(a) && SlashFree(b)
    ensures GetRepoName(GithubPrefix + owner + "/" + (a + ".git" + b)) == StripGit(a) + StripGit(b)
  {
    var n := a + ".git" + b;
    assert SlashFree(n) by {
      forall x | 0 <= x < |n| ensures n[x] != '/' {
        if x < |a| { assert n[x] == a[x]; }
        else if x >= |a| + 4 { assert n[x] == b[x - |a| - 4]; }
      }
    }
    NameOfGithubUrl(owner, n);
    StripGitSplits(a, b);
  }

  /** A dotted version number stays, only the `.git` goes: `v1.0.git` gives `v1.0`. */
  lemma NameOfDottedRepo(owner: string)
    requires owner != [] && SlashFree(owner)
    ensures GetRepoName(GithubPrefix + owner + "/" + "v1.0.git") == "v1.0"
  {
    assert "v1.0.git" == "v1.0" + ".git" + [];
    NameLosesGit(owner, "v1.0", []);
    assert !GitAt("v1.0", 0);
    StripGitSkips("v1.0");
    assert StripGit([]) == [];
  }

  /** A name that is nothing but `.git` comes out empty. */
  lemma NameCanBeEmpty(owner: string)
    requires owner != [] && SlashFree(owner)
    ensures GetRepoName(GithubPrefix + owner + "/" + ".git") == []
  {
    NameOfGithubUrl(owner, ".git");
    StripGitDrops([]);
    assert ".git" + [] == ".git";
  }

  /** A URL that names an owner but no repository falls back, with or without a trailing `/`. */
  lemma OwnerOnlyFallback(owner: string, trail: string)
    requires SlashFree(owner) && (trail == [] || trail == "/")
    ensures GetRepoName(GithubPrefix + owner + trail) == Fallback
  {
    var url := GithubPrefix + owner + trail;
    assert url[..|GithubPrefix|] == GithubPrefix;
    NoMatchInScheme(url);
    forall x | |GithubPrefix| <= x < |GithubPrefix| + |owner| ensures url[x] != '/' {
      assert url[x] == owner[x - |GithubPrefix|];
    }
  }

  /** The match is case-sensitive: with a capitalised host the fallback is used. */
  lemma CapitalisedHostFallback(owner: string, n: string)
    requires SlashFree(owner) && SlashFree(n)
    ensures GetRepoName("https://GitHub.com/" + owner + "/" + n) == Fallback
  {
    var scheme := "https://GitHub.com/";
    var url := scheme + owner + "/" + n;
    var slash := |scheme| + |owner|;
    assert url[..|scheme|] == scheme;
    assert scheme[..9] == "https://G";
    assert 'g' !in "https://G";
    forall x | |scheme| <= x < |url| && x != slash ensures url[x] != '/' {
      if x < slash { assert url[x] == owner[x - |scheme|]; }
      else { assert url[x] == n[x - slash - 1]; }
    }
    forall i, j, k ensures !MatchSpan(url, i, j, k) {
      if 0 <= i < 9 {
        assert url[i] == scheme[..9][i];
      }
    }
  }

  /** One pass over `..gitgit` removes the inner `.git` and joins a new one. */
  lemma StripGitLeavesGit(a: string)
    requires '.' !in a
    ensures StripGit(a + "..gitgit") == a + ".git"
  {
    StripGitKeepsPrefix(a, "..gitgit");
    InnerGitRemoved();
  }

  /** `..gitgit` loses its inner `.git` and becomes `.git`. */
  lemma InnerGitRemoved()
    ensures StripGit("..gitgit") == ".git"
  {
    var w := "..gitgit";
    assert !GitAt(w, 0) by { assert w[1] == '.'; }
    StripGitSkips(w);
    assert w[1..] == ".git" + "git";
    StripGitDrops("git");
    StripGitNoDot("git");
    assert [w[0]] + "git" == ".git";
  }

  /** Removing `.git` is not idempotent: a second pass removes the `.git` the first one left. */
  lemma StripGitNotIdempotent(a: string)
    requires '.' !in a
    ensures StripGit(a + "..gitgit") != StripGit(StripGit(a + "..gitgit"))
    ensures StripGit(StripGit(a + "..gitgit")) == a
  {
    StripGitLeavesGit(a);
    StripGitIdentity(a);
    StripGitRemovesOccurrence(a, []);
    assert a + ".git" + [] == a + ".git";
    assert StripGit([]) == [];
    assert |a + ".git"| != |a|;
  }

  /** A position where no `.git` starts is copied through. */
  lemma StripGitSkips(s: string)
    requires |s| >= 4 && !GitAt(s, 0)
    ensures StripGit(s) == [s[0]] + StripGit(s[1..])
  {
  }
}
