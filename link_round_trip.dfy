/**
 * The create path and the update paths talk through the task description:
 * the link the create handler writes must be read back, by the status and
 * priority handlers, as the number of the issue it created.
 */
module LinkRoundTrip {
  import opened Wrappers
  import opened Text
  import opened IssueMarkers
  import TaskCreated

  /** What the create path puts between the old description and the marker. */
  const Rule: string := "\n\n---\n\n*"

  /** Positions where the pattern cannot start do not change the leftmost match. */
  lemma {:induction false} SkipNonMatching(s: string, marker: string, k: nat)
    requires k <= |s|
    requires forall i | 0 <= i < k :: MatchAt(s[i..], marker).None?
    ensures FirstMatch(s, marker) == FirstMatch(s[k..], marker)
    decreases k
  {
    if k > 0 {
      assert s[0..] == s;
      forall i | 0 <= i < k - 1
        ensures MatchAt(s[1..][i..], marker).None?
      {
        assert s[1..][i..] == s[i + 1..];
      }
      SkipNonMatching(s[1..], marker, k - 1);
      assert s[1..][k - 1..] == s[k..];
    }
  }

  /** `[^/]+` applied to a segment followed by `/` (or by nothing) takes exactly that segment. */
  lemma {:induction false} SegmentBeforeSlash(a: string, rest: string)
    requires '/' !in a
    requires rest == [] || rest[0] == '/'
    ensures Segment(a + rest) == a
  {
    if a == [] {
      assert a + rest == rest;
    } else {
      assert (a + rest)[1..] == a[1..] + rest;
      SegmentBeforeSlash(a[1..], rest);
      assert [a[0]] + a[1..] == a;
    }
  }

  /** A greedy `\d+` takes a digit string followed by a non-digit (or by nothing). */
  lemma {:induction false} DigitsBeforeNonDigit(d: string, rest: string)
    requires AllDigits(d)
    requires rest == [] || !IsDigit(rest[0])
    ensures LeadingDigits(d + rest) == d
  {
    if d == [] {
      assert d + rest == rest;
    } else {
      assert (d + rest)[1..] == d[1..] + rest;
      DigitsBeforeNonDigit(d[1..], rest);
      assert [d[0]] + d[1..] == d;
    }
  }

  /** The pattern, anchored where the marker is followed by a well-formed issue URL, captures that URL. */
  lemma MatchIssueUrl(s: string, marker: string, owner: string, repo: string, digits: string, after: string)
    requires owner != [] && repo != [] && '/' !in owner && '/' !in repo
    requires digits != [] && AllDigits(digits)
    requires after == [] || !IsDigit(after[0])
    requires s == (marker + " " + IssueUrlPrefix) + (owner + ("/" + (repo + (IssuesPath + (digits + after)))))
    ensures MatchAt(s, marker) == Some(IssueUrl(owner, repo, digits))
  {
    var head := marker + " " + IssueUrlPrefix;
    var r2 := repo + (IssuesPath + (digits + after));
    var r1 := owner + ("/" + r2);
    PrefixDrop(head, r1);
    assert MatchAt(s, marker) == MatchOwner(r1);
    SegmentBeforeSlash(owner, "/" + r2);
    PrefixDrop(owner + "/", r2);
    Assoc(owner, "/", r2);
    assert MatchOwner(r1) == MatchRepo(owner, r2);
    MatchRepoOfIssuePath(owner, repo, digits, after);
  }

  /** Dropping a prefix. */
  lemma PrefixDrop<T>(h: seq<T>, r: seq<T>)
    ensures h <= h + r && (h + r)[|h|..] == r
  {
  }

  lemma MatchRepoOfIssuePath(owner: string, repo: string, digits: string, after: string)
    requires repo != [] && '/' !in repo
    requires digits != [] && AllDigits(digits)
    requires after == [] || !IsDigit(after[0])
    ensures MatchRepo(owner, repo + (IssuesPath + (digits + after))) == Some(IssueUrl(owner, repo, digits))
  {
    var r3 := IssuesPath + (digits + after);
    SegmentBeforeSlash(repo, r3);
    assert (repo + r3)[|repo|..] == r3;
    assert r3[|IssuesPath|..] == digits + after;
    DigitsBeforeNonDigit(digits, after);
  }

  /** No match can start inside an old description that never mentions the linked-to marker. */
  lemma NoMatchInDescription(base: string, rest: string, i: nat)
    requires i < |base|
    requires !Contains(base, LinkedMarker + " ")
    requires rest != [] && rest[0] == '\n'
    ensures MatchAt((base + rest)[i..], LinkedMarker).None?
  {
    var s := (base + rest)[i..];
    var m := LinkedMarker + " ";
    var head := m + IssueUrlPrefix;
    if i + |m| <= |base| {
      assert s[..|m|] == base[i..i + |m|];
      assert !OccursAt(base, m, i);
      assert head[..|m|] == m;
    } else {
      var j := |base| - i;
      assert s[j] == '\n';
      HeadHasNoNewline(j);
      assert s[j] != head[j];
    }
  }

  lemma HeadHasNoNewline(j: int)
    requires 0 <= j <= |LinkedMarker|
    ensures (LinkedMarker + " " + IssueUrlPrefix)[j] != '\n'
  {
  }

  lemma RegroupUrl<T>(m: seq<T>, sp: seq<T>, p: seq<T>, o: seq<T>, sl: seq<T>, r: seq<T>, i: seq<T>, dg: seq<T>, st: seq<T>)
    ensures m + sp + (p + o + sl + r + i + dg) + st == (m + sp + p) + (o + (sl + (r + (i + (dg + st)))))
  {
  }

  lemma RegroupDescription<T>(b: seq<T>, ru: seq<T>, m: seq<T>, sp: seq<T>, u: seq<T>, st: seq<T>)
    ensures b + (ru + m + sp) + u + st == (b + ru) + (m + sp + u + st)
  {
  }

  lemma LinkLiteral()
    ensures "\n\n---\n\n*Linked to GitHub issue: " == Rule + LinkedMarker + " "
  {
  }

  /** Nor inside the rule, none of whose characters is the marker's first letter. */
  lemma NoMatchInRule(base: string, rest: string, i: nat)
    requires |base| <= i < |base| + |Rule|
    requires Rule <= rest
    ensures MatchAt((base + rest)[i..], LinkedMarker).None?
  {
    var s := (base + rest)[i..];
    assert s[0] == Rule[i - |base|];
    assert forall c | c in Rule :: c != 'L';
  }

  /** A description whose leftmost linked-to match carries a positive number links that issue. */
  lemma DetectLinkOfMatch(d: string, url: string, n: int)
    requires Contains(d, LinkedMarker)
    requires FirstMatch(d, LinkedMarker) == Some(url)
    requires IssueNumberOf(url) == Some(n) && n > 0
    ensures IssueMarkers.DetectLink(Some(d)) == LinkedIssue(n)
  {
    assert IssueUrlIn(d) == Some(url);
  }

  /** The linked description is the old one, the rule, then the marker and the URL. */
  lemma LinkedDescriptionShape(description: Option<string>, url: string)
    ensures TaskCreated.LinkedDescription(description, url)
            == OrElse(description, "") + (Rule + (LinkedMarker + " " + url + "*"))
  {
    var base := OrElse(description, "");
    var tail := LinkedMarker + " " + url + "*";
    LinkLiteral();
    RegroupDescription(base, Rule, LinkedMarker, " ", url, "*");
    Assoc(base, Rule, tail);
  }

  /** Before the appended marker there is no match, so the leftmost match is the one at the marker. */
  lemma FirstMatchSkipsDescription(base: string, tail: string)
    requires !Contains(base, LinkedMarker + " ")
    requires tail != []
    ensures FirstMatch(base + (Rule + tail), LinkedMarker) == FirstMatch(tail, LinkedMarker)
  {
    var d := base + (Rule + tail);
    var k := |base| + |Rule|;
    PrefixDrop(Rule, tail);
    Assoc(base, Rule, tail);
    PrefixDrop(base + Rule, tail);
    forall i | 0 <= i < k
      ensures MatchAt(d[i..], LinkedMarker).None?
    {
      if i < |base| {
        NoMatchInDescription(base, Rule + tail, i);
      } else {
        NoMatchInRule(base, Rule + tail, i);
      }
    }
    SkipNonMatching(d, LinkedMarker, k);
  }

  /** The appended marker text matches at its own start. */
  lemma TailMatches(owner: string, repo: string, digits: string)
    requires owner != [] && repo != [] && '/' !in owner && '/' !in repo
    requires digits != [] && AllDigits(digits)
    ensures FirstMatch(LinkedMarker + " " + IssueUrl(owner, repo, digits) + "*", LinkedMarker)
            == Some(IssueUrl(owner, repo, digits))
  {
    var tail := LinkedMarker + " " + IssueUrl(owner, repo, digits) + "*";
    RegroupUrl(LinkedMarker, " ", IssueUrlPrefix, owner, "/", repo, IssuesPath, digits, "*");
    MatchIssueUrl(tail, LinkedMarker, owner, repo, digits, "*");
  }

  /**
   * The description the create path writes for the issue at
   * `https://github.com/<owner>/<repo>/issues/<n>` is read back as issue `n`,
   * provided the old description did not already carry the linked-to marker.
   */
  lemma CreatedLinkIsDetected(description: Option<string>, owner: string, repo: string, n: nat)
    requires owner != [] && repo != [] && '/' !in owner && '/' !in repo
    requires n > 0
    requires !Contains(OrElse(description, ""), LinkedMarker + " ")
    ensures IssueMarkers.DetectLink(Some(TaskCreated.LinkedDescription(description, IssueUrl(owner, repo, Decimal(n)))))
            == LinkedIssue(n)
  {
    var base := OrElse(description, "");
    var url := IssueUrl(owner, repo, Decimal(n));
    var tail := LinkedMarker + " " + url + "*";
    var d := base + (Rule + tail);
    assert TaskCreated.LinkedDescription(description, url) == d by {
      LinkedDescriptionShape(description, url);
    }
    assert FirstMatch(d, LinkedMarker) == Some(url) by {
      FirstMatchSkipsDescription(base, tail);
      TailMatches(owner, repo, Decimal(n));
    }
    assert Contains(d, LinkedMarker) by {
      assert OccursAt(tail, LinkedMarker, 0);
      ContainsAppendRight(base + Rule, tail, LinkedMarker);
      Assoc(base, Rule, tail);
    }
    assert IssueNumberOf(url) == Some(n) by {
      IssueNumberOfIssueUrl(owner, repo, Decimal(n));
    }
    DetectLinkOfMatch(d, url, n);
  }
}
