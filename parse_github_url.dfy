/**
 * `parseGithubUrl`: from a repository URL to its owner and name. The WHATWG
 * URL parser is not modelled: its outcome is the input, `None` when
 * `new URL(url)` throws, otherwise the hostname and pathname it produced.
 */
module GithubUrl {
  import opened Wrappers
  import Text

  datatype UrlParts = UrlParts(hostname: string, pathname: string)
  datatype Repository = Repository(repositoryOwner: string, repositoryName: string)

  const GithubHost: string := "github.com"
  const GitSuffix: string := ".git"

  /** The non-empty `/`-separated segments of a path. */
  function Segments(pathname: string): seq<string>
  {
    Text.NonEmpty(Text.Split(pathname, '/'))
  }

  /** `name.replace(/\.git$/, "")`: one trailing `.git` is removed. */
  function StripGitSuffix(name: string): (r: string)
    ensures |name| >= 4 && name[|name| - 4..] == GitSuffix ==> r + GitSuffix == name
    ensures !(|name| >= 4 && name[|name| - 4..] == GitSuffix) ==> r == name
  {
    if |name| >= 4 && name[|name| - 4..] == GitSuffix then name[..|name| - 4] else name
  }

  function ParseGithubUrl(url: Option<UrlParts>): (r: Option<Repository>)
    ensures url.None? ==> r.None?
    ensures url.Some? && url.value.hostname != GithubHost ==> r.None?
    ensures url.Some? && |Segments(url.value.pathname)| < 2 ==> r.None?
    ensures r.Some? ==> var parts := Segments(url.value.pathname);
      |parts| >= 2 && r.value.repositoryOwner == parts[0] && r.value.repositoryOwner != ""
      && r.value.repositoryName == StripGitSuffix(parts[1])
    ensures url.Some? && url.value.hostname == GithubHost && |Segments(url.value.pathname)| >= 2 ==>
      r == Some(Repository(Segments(url.value.pathname)[0], StripGitSuffix(Segments(url.value.pathname)[1])))
  {
    if url.None? then None
    else if url.value.hostname != GithubHost then None
    else
      var parts := Segments(url.value.pathname);
      if |parts| < 2 then None
      else Some(Repository(parts[0], StripGitSuffix(parts[1])))
  }

  /** Empty path segments do not matter: two paths with the same non-empty segments parse alike. */
  lemma EmptySegmentsIgnored(host: string, p: string, q: string)
    requires Segments(p) == Segments(q)
    ensures ParseGithubUrl(Some(UrlParts(host, p))) == ParseGithubUrl(Some(UrlParts(host, q)))
  {
  }

  /** Doubling a separator inside a path is one of those changes. */
  lemma DoubledSlashIgnored(a: string, b: string)
    ensures Segments(a + "/" + b) == Segments(a + "//" + b)
  {
    assert "/" == ['/'] && "//" == ['/', '/'];
    Text.SplitJoin(a, '/', b);
    SplitDoubled(a, '/', b);
    NonEmptyDropsEmpty(Text.Split(a, '/'), Text.Split(b, '/'));
  }

  /** A doubled separator splits off one empty part. */
  lemma SplitDoubled(a: string, sep: char, b: string)
    ensures Text.Split(a + [sep, sep] + b, sep) == Text.Split(a, sep) + [""] + Text.Split(b, sep)
  {
    var rest := [sep] + b;
    assert a + [sep, sep] + b == a + [sep] + rest;
    Text.SplitJoin(a, sep, rest);
    assert rest[1..] == b;
    assert Text.Split(rest, sep) == [""] + Text.Split(b, sep);
  }

  lemma NonEmptyDropsEmpty(A: seq<string>, B: seq<string>)
    ensures Text.NonEmpty(A + [""] + B) == Text.NonEmpty(A + B)
  {
    Text.NonEmptyAppend(A, B);
    Text.NonEmptyAppend(A + [""], B);
    Text.NonEmptyAppend(A, [""]);
    assert Text.NonEmpty([""]) == [];
  }

  /**
   * Anything after the second segment is ignored: `github.com/<owner>/<name>/...`
   * gives `<owner>` and `<name>` without `.git`, whatever follows.
   */
  lemma {:induction false} ExtraSegmentsIgnored(owner: string, name: string, rest: string)
    requires owner != "" && name != "" && '/' !in owner && '/' !in name
    ensures ParseGithubUrl(Some(UrlParts(GithubHost, "/" + owner + "/" + name + "/" + rest)))
      == Some(Repository(owner, StripGitSuffix(name)))
  {
    var path := "/" + owner + "/" + name + "/" + rest;
    assert path == ("" + "/" + owner) + "/" + name + "/" + rest;
    Text.SplitJoin(("" + "/" + owner) + "/" + name, '/', rest);
    Text.SplitJoin("" + "/" + owner, '/', name);
    Text.SplitJoin("", '/', owner);
    Text.SplitNoSeparator(owner, '/');
    Text.SplitNoSeparator(name, '/');
    assert Text.Split("", '/') == [""];
    var parts := Text.Split(path, '/');
    assert parts == [""] + [owner] + [name] + Text.Split(rest, '/');
    Text.NonEmptyAppend([""] + [owner] + [name], Text.Split(rest, '/'));
    Text.NonEmptyAppend([""] + [owner], [name]);
    Text.NonEmptyAppend([""], [owner]);
  }

  /** `github.com/<owner>/<name>`, the form a repository link usually has, gives that owner and name. */
  lemma {:induction false} OwnerNamePath(owner: string, name: string)
    requires owner != "" && name != "" && '/' !in owner && '/' !in name
    ensures ParseGithubUrl(Some(UrlParts(GithubHost, "/" + owner + "/" + name)))
      == Some(Repository(owner, StripGitSuffix(name)))
  {
    var path := "/" + owner + "/" + name;
    assert path == ("" + "/" + owner) + "/" + name;
    Text.SplitJoin("" + "/" + owner, '/', name);
    Text.SplitJoin("", '/', owner);
    Text.SplitNoSeparator(owner, '/');
    Text.SplitNoSeparator(name, '/');
    assert Text.Split("", '/') == [""];
    assert Text.Split(path, '/') == [""] + [owner] + [name];
    Text.NonEmptyAppend([""] + [owner], [name]);
    Text.NonEmptyAppend([""], [owner]);
  }

  /** `/o/r/issues/7` names repository `r` of owner `o`. */
  lemma IssuePageUrl()
    ensures ParseGithubUrl(Some(UrlParts("github.com", "/o/r/issues/7"))) == Some(Repository("o", "r"))
  {
    ExtraSegmentsIgnored("o", "r", "issues/7");
    assert "/" + "o" + "/" + "r" + "/" + "issues/7" == "/o/r/issues/7";
  }

  /** A clone URL path `/<owner>/<name>.git` gives the bare name. */
  lemma {:induction false} CloneUrl(owner: string, name: string)
    requires owner != "" && name != "" && '/' !in owner && '/' !in name
    ensures ParseGithubUrl(Some(UrlParts(GithubHost, "/" + owner + "/" + name + GitSuffix)))
      == Some(Repository(owner, name))
  {
    var full := name + GitSuffix;
    assert '/' !in full by {
      assert forall i | 0 <= i < |full| :: full[i] == (if i < |name| then name[i] else GitSuffix[i - |name|]);
    }
    var path := "/" + owner + "/" + full;
    assert path == ("" + "/" + owner) + "/" + full;
    Text.SplitJoin("" + "/" + owner, '/', full);
    Text.SplitJoin("", '/', owner);
    Text.SplitNoSeparator(owner, '/');
    Text.SplitNoSeparator(full, '/');
    assert Text.Split(path, '/') == [""] + [owner] + [full];
    Text.NonEmptyAppend([""] + [owner], [full]);
    Text.NonEmptyAppend([""], [owner]);
    assert Text.NonEmpty([full]) == [full];
    assert Text.NonEmpty([owner]) == [owner];
    assert Segments(path) == [owner, full];
    assert full[|full| - 4..] == GitSuffix;
    assert full[..|full| - 4] == name;
    assert StripGitSuffix(full) == name;
    assert "/" + owner + "/" + name + GitSuffix == path;
  }
}
