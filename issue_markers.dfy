/**
 * How a task description records its GitHub issue. The create path appends
 * `Linked to GitHub issue: <url>`; tasks imported from GitHub carry
 * `Created from GitHub issue: <url>`. The status and priority handlers look
 * for either marker, then match the regular expression
 * `<marker> (https://github\.com/[^/]+/[^/]+/issues/\d+)` (linked-to first),
 * and take the issue number with `parseInt` of the URL's last segment.
 */
module IssueMarkers {
  import opened Wrappers
  import Text

  const LinkedMarker: string := "Linked to GitHub issue:"
  const CreatedMarker: string := "Created from GitHub issue:"
  const IssueUrlPrefix: string := "https://github.com/"
  const IssuesPath: string := "/issues/"

  predicate IsDigit(c: char) { '0' <= c <= '9' }

  predicate AllDigits(s: string)
  {
    forall i | 0 <= i < |s| :: IsDigit(s[i])
  }

  /** The canonical web address of an issue. */
  function IssueUrl(owner: string, repo: string, number: string): string
  {
    IssueUrlPrefix + owner + "/" + repo + IssuesPath + number
  }

  /** The longest prefix without `/`: what `[^/]+` consumes before the next `/`. */
  function Segment(s: string): (r: string)
    ensures r <= s && '/' !in r
    ensures |r| < |s| ==> s[|r|] == '/'
  {
    if s == [] || s[0] == '/' then [] else [s[0]] + Segment(s[1..])
  }

  /** The longest prefix of ASCII digits: what a greedy `\d+` consumes. */
  function LeadingDigits(s: string): (r: string)
    ensures r <= s && AllDigits(r)
    ensures |r| < |s| ==> !IsDigit(s[|r|])
  {
    if s == [] || !IsDigit(s[0]) then [] else [s[0]] + LeadingDigits(s[1..])
  }

  /**
   * The regular expression anchored at the start of `s`: the captured issue
   * URL, or `None`. The character classes have no `/` in them, so each
   * `[^/]+` can only stop at the next `/`, and there is nothing to backtrack.
   */
  function MatchAt(s: string, marker: string): Option<string>
  {
    var head := marker + " " + IssueUrlPrefix;
    if head <= s then MatchOwner(s[|head|..]) else None
  }

  /** `[^/]+\/` for the owner, then the rest of the path. */
  function MatchOwner(r1: string): Option<string>
  {
    var owner := Segment(r1);
    if owner == [] || |owner| == |r1| then None
    else MatchRepo(owner, r1[|owner| + 1..])
  }

  /** `[^/]+\/issues\/\d+` for the repository and the number. */
  function MatchRepo(owner: string, r2: string): Option<string>
  {
    var repo := Segment(r2);
    var r3 := r2[|repo|..];
    if repo == [] || !(IssuesPath <= r3) then None
    else
      var digits := LeadingDigits(r3[|IssuesPath|..]);
      if digits == [] then None
      else Some(IssueUrl(owner, repo, digits))
  }

  /** `s.match(regex)` without the global flag: the leftmost match wins. */
  function FirstMatch(s: string, marker: string): Option<string>
    decreases |s|
  {
    var m := MatchAt(s, marker);
    if m.Some? then m else if s == [] then None else FirstMatch(s[1..], marker)
  }

  /** `FirstMatch` fails exactly when the pattern matches at no position. */
  lemma {:induction false} FirstMatchNone(s: string, marker: string)
    ensures FirstMatch(s, marker).None? <==> forall i | 0 <= i <= |s| :: MatchAt(s[i..], marker).None?
    decreases |s|
  {
    assert s[0..] == s;
    if MatchAt(s, marker).None? && s != [] {
      FirstMatchNone(s[1..], marker);
      assert forall i | 1 <= i <= |s| :: s[1..][i - 1..] == s[i..];
    }
  }

  /** What `FirstMatch` finds is the match at the leftmost position where there is one. */
  lemma {:induction false} FirstMatchLeftmost(s: string, marker: string)
    requires FirstMatch(s, marker).Some?
    ensures exists i | 0 <= i <= |s| ::
      && MatchAt(s[i..], marker) == FirstMatch(s, marker)
      && forall j | 0 <= j < i :: MatchAt(s[j..], marker).None?
    decreases |s|
  {
    assert s[0..] == s;
    if MatchAt(s, marker).None? {
      var t := s[1..];
      FirstMatchLeftmost(t, marker);
      var i :| 0 <= i <= |t| && MatchAt(t[i..], marker) == FirstMatch(t, marker)
               && forall j | 0 <= j < i :: MatchAt(t[j..], marker).None?;
      assert t[i..] == s[i + 1..];
      NoMatchShifted(s, marker, i);
    }
  }

  /** No match at the head of `s` and none in the first `i` positions of its tail: none in its first `i + 1`. */
  lemma NoMatchShifted(s: string, marker: string, i: nat)
    requires i < |s| && MatchAt(s, marker).None?
    requires forall j | 0 <= j < i :: MatchAt(s[1..][j..], marker).None?
    ensures forall j | 0 <= j < i + 1 :: MatchAt(s[j..], marker).None?
  {
    forall j | 0 <= j < i + 1
      ensures MatchAt(s[j..], marker).None?
    {
      if j == 0 { assert s[0..] == s; } else { assert s[1..][j - 1..] == s[j..]; }
    }
  }

  /** A match at the start of `s` begins with the marker. */
  lemma MatchAtHasMarker(s: string, marker: string)
    requires MatchAt(s, marker).Some?
    ensures Text.OccursAt(s, marker, 0)
  {
    assert s[0..|marker|] == (marker + " " + IssueUrlPrefix)[0..|marker|];
  }

  /** A match begins with the marker, so the text contains it. */
  lemma {:induction false} FirstMatchHasMarker(s: string, marker: string)
    requires FirstMatch(s, marker).Some?
    ensures Text.Contains(s, marker)
    decreases |s|
  {
    if MatchAt(s, marker).Some? {
      MatchAtHasMarker(s, marker);
      Text.ContainsAt(s, marker, 0);
    } else {
      var head, tail := s[..1], s[1..];
      assert FirstMatch(tail, marker).Some?;
      FirstMatchHasMarker(tail, marker);
      Text.ContainsAppendRight(head, tail, marker);
      assert head + tail == s;
    }
  }

  /** The decimal value of a digit string, leading zeros allowed. */
  function DigitsValue(d: string): nat
    requires AllDigits(d)
  {
    if d == [] then 0 else DigitsValue(d[..|d| - 1]) * 10 + (d[|d| - 1] as int - '0' as int)
  }

  /** `Number.parseInt(s, 10)`: `None` stands for `NaN`. */
  function ParseInt(s: string): (r: Option<int>)
    ensures s != [] && IsDigit(s[0]) ==> r.Some? && r.value >= 0
    ensures s == [] || (!Text.IsWhitespace(s[0]) && !IsDigit(s[0]) && s[0] != '-' && s[0] != '+') ==> r.None?
    ensures r.Some? && r.value < 0 ==> '-' in s
  {
    var t := Text.TrimStart(s);
    var signed := |t| > 0 && (t[0] == '-' || t[0] == '+');
    var d := LeadingDigits(if signed then t[1..] else t);
    var magnitude: int := if d == [] then 0 else DigitsValue(d);
    if d == [] then None
    else if signed && t[0] == '-' then Some(-magnitude)
    else Some(magnitude)
  }

  lemma ParseDigits(d: string)
    requires d != [] && AllDigits(d)
    ensures ParseInt(d) == Some(DigitsValue(d))
  {
    assert !Text.IsWhitespace(d[0]);
    assert LeadingDigits(d) == d by { LeadingDigitsOfDigits(d); }
  }

  lemma {:induction false} LeadingDigitsOfDigits(d: string)
    requires AllDigits(d)
    ensures LeadingDigits(d) == d
  {
    if d != [] {
      LeadingDigitsOfDigits(d[1..]);
      assert [d[0]] + d[1..] == d;
    }
  }

  /** The base-ten numeral of a natural number, as GitHub writes issue numbers. */
  function Decimal(n: nat): (r: string)
    ensures r != [] && AllDigits(r) && DigitsValue(r) == n
  {
    var last := ('0' as int + n % 10) as char;
    if n < 10 then [last]
    else
      var r := Decimal(n / 10) + [last];
      assert r[..|r| - 1] == Decimal(n / 10);
      r
  }

  /** `Number.parseInt(url.split("/").pop() || "0", 10)`. */
  function IssueNumberOf(url: string): Option<int>
  {
    ParseInt(Text.OrElse(Some(Text.Last(Text.Split(url, '/'))), "0"))
  }

  /** A URL ending in `/` has an empty last segment, and the `"0"` fallback parses to zero. */
  lemma TrailingSlashGivesZero(url: string)
    requires url != [] && url[|url| - 1] == '/'
    ensures IssueNumberOf(url) == Some(0)
  {
    LastSegmentAfterSlash(url[..|url| - 1]);
    assert url[..|url| - 1] + "/" == url;
    assert Text.OrElse(Some(""), "0") == "0";
    assert AllDigits("0");
    ParseDigits("0");
  }

  /** Splitting at a final `/` leaves an empty last segment. */
  lemma LastSegmentAfterSlash(front: string)
    ensures Text.Last(Text.Split(front + "/", '/')) == ""
  {
    assert front + ['/'] + "" == front + "/";
    Text.SplitJoin(front, '/', "");
  }

  /** The last segment of an issue URL is its number. */
  lemma IssueNumberOfIssueUrl(owner: string, repo: string, digits: string)
    requires digits != [] && AllDigits(digits)
    ensures IssueNumberOf(IssueUrl(owner, repo, digits)) == Some(DigitsValue(digits))
  {
    var front := IssueUrlPrefix + owner + "/" + repo + "/issues";
    var url := IssueUrl(owner, repo, digits);
    assert url == front + "/" + digits;
    assert '/' !in digits by {
      forall i | 0 <= i < |digits| ensures digits[i] != '/' { assert IsDigit(digits[i]); }
    }
    assert Text.Last(Text.Split(url, '/')) == digits by {
      Text.SplitJoin(front, '/', digits);
      Text.SplitNoSeparator(digits, '/');
    }
    assert Text.OrElse(Some(digits), "0") == digits;
    ParseDigits(digits);
  }

  /** Whatever matches the pattern is an issue URL whose number parses to a non-negative value. */
  lemma {:induction false} FirstMatchNumber(s: string, marker: string)
    requires FirstMatch(s, marker).Some?
    ensures var n := IssueNumberOf(FirstMatch(s, marker).value); n.Some? && n.value >= 0
    decreases |s|
  {
    var m := MatchAt(s, marker);
    if m.Some? {
      var head := marker + " " + IssueUrlPrefix;
      var r1 := s[|head|..];
      var owner := Segment(r1);
      var r2 := r1[|owner| + 1..];
      var repo := Segment(r2);
      var r3 := r2[|repo|..];
      var digits := LeadingDigits(r3[|IssuesPath|..]);
      assert m == MatchRepo(owner, r2) == Some(IssueUrl(owner, repo, digits));
      IssueNumberOfIssueUrl(owner, repo, digits);
    } else {
      FirstMatchNumber(s[1..], marker);
    }
  }

  /** The URL each marker leads to: linked-to is tried first, created-from only when it does not match. */
  function IssueUrlIn(d: string): (r: Option<string>)
    ensures FirstMatch(d, LinkedMarker).Some? ==> r == FirstMatch(d, LinkedMarker)
    ensures FirstMatch(d, LinkedMarker).None? ==> r == FirstMatch(d, CreatedMarker)
    ensures r.Some? ==> FirstMatch(d, LinkedMarker).Some? || FirstMatch(d, CreatedMarker).Some?
    ensures r.None? ==> FirstMatch(d, LinkedMarker).None? && FirstMatch(d, CreatedMarker).None?
  {
    var linked := FirstMatch(d, LinkedMarker);
    if linked.Some? then linked else FirstMatch(d, CreatedMarker)
  }

  datatype LinkState = NoMarker | NoIssueUrl | NoIssueNumber | LinkedIssue(number: int)

  /** The extraction both handlers share; only `LinkedIssue` leads to remote calls. */
  function DetectLink(description: Option<string>): (r: LinkState)
    ensures description.None? ==> r == NoMarker
    ensures (description.Some?
             && !Text.Contains(description.value, LinkedMarker)
             && !Text.Contains(description.value, CreatedMarker)) ==> r == NoMarker
    ensures r.LinkedIssue? ==> r.number > 0
    ensures r.LinkedIssue? ==>
      IssueUrlIn(description.value).Some? && IssueNumberOf(IssueUrlIn(description.value).value) == Some(r.number)
    ensures description.Some? && FirstMatch(description.value, LinkedMarker).Some? ==> r != NoIssueUrl
    ensures (description.Some?
             && IssueUrlIn(description.value).Some?
             && IssueNumberOf(IssueUrlIn(description.value).value).Some?
             && IssueNumberOf(IssueUrlIn(description.value).value).value > 0)
            ==> r == LinkedIssue(IssueNumberOf(IssueUrlIn(description.value).value).value)
    ensures (description.Some?
             && (Text.Contains(description.value, LinkedMarker) || Text.Contains(description.value, CreatedMarker))
             && IssueUrlIn(description.value).None?) ==> r == NoIssueUrl
    ensures (description.Some?
             && FirstMatch(description.value, LinkedMarker).Some?
             && IssueNumberOf(FirstMatch(description.value, LinkedMarker).value) == Some(0)) ==> r == NoIssueNumber
  {
    if description.None? then NoMarker
    else
      var d := description.value;
      if !Text.Contains(d, LinkedMarker) && !Text.Contains(d, CreatedMarker) then
        assert IssueUrlIn(d).None? by {
          if FirstMatch(d, LinkedMarker).Some? { FirstMatchHasMarker(d, LinkedMarker); }
          if FirstMatch(d, CreatedMarker).Some? { FirstMatchHasMarker(d, CreatedMarker); }
        }
        NoMarker
      else
        match IssueUrlIn(d)
        case None => NoIssueUrl
        case Some(url) =>
          var n := IssueNumberOf(url);
          if n.None? || n.value == 0 then NoIssueNumber
          else
            assert n.value > 0 by {
              if FirstMatch(d, LinkedMarker).Some? { FirstMatchNumber(d, LinkedMarker); }
              else { FirstMatchNumber(d, CreatedMarker); }
            }
            LinkedIssue(n.value)
  }
}
