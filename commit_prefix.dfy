/**
 * The `/generate-description` and `/generate-prefix` endpoints: both refuse
 * a falsy title before calling the model; the prefix endpoint reduces the
 * model's free-text answer to one of eight conventional-commit prefixes.
 * The model is a function from the title to its answer text.
 */
module CommitPrefix {
  import opened Wrappers
  import opened Text

  const Prefixes: seq<string> := ["feat", "fix", "chore", "docs", "style", "refactor", "perf", "test"]
  const DefaultPrefix: string := "chore"
  const TitleRequired: string := "Title is required"

  /** `candidates.find((p) => text.includes(p))`. */
  function FindContained(candidates: seq<string>, text: string): (r: Option<string>)
    ensures r.None? <==> forall i | 0 <= i < |candidates| :: !Contains(text, candidates[i])
    ensures r.Some? ==> exists i | 0 <= i < |candidates| ::
      && candidates[i] == r.value
      && Contains(text, r.value)
      && forall j | 0 <= j < i :: !Contains(text, candidates[j])
  {
    if candidates == [] then None
    else if Contains(text, candidates[0]) then Some(candidates[0])
    else
      var r := FindContained(candidates[1..], text);
      assert forall j | 1 <= j < |candidates| :: candidates[j] == candidates[1..][j - 1];
      r
  }

  /** The prefix for a lower-cased answer: the first listed prefix it contains, else `chore`. */
  function ChoosePrefix(text: string): string
  {
    FindContained(Prefixes, text).GetOr(DefaultPrefix)
  }

  /** `response.text().trim().toLowerCase()`, then the choice. */
  function SelectPrefix(answer: string): (r: string)
    ensures r in Prefixes
    ensures (forall i | 0 <= i < |Prefixes| :: !Contains(ToLower(Trim(answer)), Prefixes[i])) ==> r == DefaultPrefix
    ensures (exists i | 0 <= i < |Prefixes| :: Contains(ToLower(Trim(answer)), Prefixes[i])) ==>
      exists i | 0 <= i < |Prefixes| ::
        && Prefixes[i] == r
        && Contains(ToLower(Trim(answer)), r)
        && forall j | 0 <= j < i :: !Contains(ToLower(Trim(answer)), Prefixes[j])
  {
    var text := ToLower(Trim(answer));
    var found := FindContained(Prefixes, text);
    DefaultIsListed();
    if found.None? then
      assert forall j | 0 <= j < 2 :: !Contains(text, Prefixes[j]);
      assert DefaultPrefix == Prefixes[2];
      DefaultPrefix
    else
      var i :| 0 <= i < |Prefixes| && Prefixes[i] == found.value && Contains(text, found.value)
               && forall j | 0 <= j < i :: !Contains(text, Prefixes[j]);
      found.value
  }

  /** `chore` is the third listed prefix. */
  lemma DefaultIsListed()
    ensures |Prefixes| == 8 && Prefixes[2] == DefaultPrefix
  {
  }

  predicate NoWhitespace(p: string)
  {
    forall k | 0 <= k < |p| :: !IsWhitespace(p[k])
  }

  /** A non-empty word without whitespace occurs in a string exactly when it occurs in the string with its surrounding whitespace removed. */
  lemma ContainsWithinPadding(s: string, i: int, j: int, p: string)
    requires 0 <= i <= j <= |s|
    requires forall k | 0 <= k < i :: IsWhitespace(s[k])
    requires forall k | j <= k < |s| :: IsWhitespace(s[k])
    requires p != [] && NoWhitespace(p)
    ensures Contains(s[i..j], p) <==> Contains(s, p)
  {
    if Contains(s[i..j], p) {
      var q :| 0 <= q <= |s[i..j]| - |p| && OccursAt(s[i..j], p, q);
      var inner, outer := s[i..j][q..q + |p|], s[i + q..i + q + |p|];
      forall k | 0 <= k < |p|
        ensures inner[k] == outer[k]
      {
        assert s[i..j][q + k] == s[i + q + k];
      }
      assert inner == outer;
      assert OccursAt(s, p, i + q);
    }
    if Contains(s, p) {
      var q :| 0 <= q <= |s| - |p| && OccursAt(s, p, q);
      assert s[q] == p[0];
      assert s[q + |p| - 1] == p[|p| - 1];
      assert i <= q && q + |p| <= j;
      var inner, outer := s[i..j][q - i..q - i + |p|], s[q..q + |p|];
      forall k | 0 <= k < |p|
        ensures inner[k] == outer[k]
      {
        assert s[i..j][q - i + k] == s[q + k];
      }
      assert inner == outer;
      assert OccursAt(s[i..j], p, q - i);
    }
  }

  lemma PrefixesAreWords()
    ensures forall n | 0 <= n < |Prefixes| :: Prefixes[n] != [] && NoWhitespace(Prefixes[n])
  {
  }

  /** Lower-casing commutes with cutting out `[i..j]` and keeps whitespace whitespace. */
  lemma LowerKeepsPadding(s: string, i: int, j: int)
    requires 0 <= i <= j <= |s|
    requires forall k | 0 <= k < i :: IsWhitespace(s[k])
    requires forall k | j <= k < |s| :: IsWhitespace(s[k])
    ensures ToLower(s[i..j]) == ToLower(s)[i..j]
    ensures forall k | 0 <= k < i :: IsWhitespace(ToLower(s)[k])
    ensures forall k | j <= k < |s| :: IsWhitespace(ToLower(s)[k])
  {
  }

  lemma {:induction false} FindContainedAgrees(candidates: seq<string>, a: string, b: string)
    requires forall i | 0 <= i < |candidates| :: Contains(a, candidates[i]) <==> Contains(b, candidates[i])
    ensures FindContained(candidates, a) == FindContained(candidates, b)
  {
    if candidates != [] && !Contains(a, candidates[0]) {
      FindContainedAgrees(candidates[1..], a, b);
    }
  }

  /** Whitespace around the model's answer never changes the chosen prefix. */
  lemma TrimDoesNotMatter(answer: string)
    ensures SelectPrefix(answer) == ChoosePrefix(ToLower(answer))
  {
    PrefixesAreWords();
    FindIgnoresPadding(Prefixes, answer);
  }

  /** For words without whitespace, the first one found does not depend on padding. */
  lemma FindIgnoresPadding(candidates: seq<string>, answer: string)
    requires forall n | 0 <= n < |candidates| :: candidates[n] != [] && NoWhitespace(candidates[n])
    ensures FindContained(candidates, ToLower(Trim(answer))) == FindContained(candidates, ToLower(answer))
  {
    var t := Trim(answer);
    var i, j :| 0 <= i <= j <= |answer| && t == answer[i..j]
                && (forall k | 0 <= k < i :: IsWhitespace(answer[k]))
                && (forall k | j <= k < |answer| :: IsWhitespace(answer[k]));
    var lower := ToLower(answer);
    LowerKeepsPadding(answer, i, j);
    forall n | 0 <= n < |candidates|
      ensures Contains(ToLower(t), candidates[n]) <==> Contains(lower, candidates[n])
    {
      ContainsWithinPadding(lower, i, j, candidates[n]);
    }
    FindContainedAgrees(candidates, ToLower(t), lower);
  }

  datatype Body = Error(error: string) | Description(description: string) | Prefix(prefix: string)
  datatype Reply = Reply(status: int, body: Body, modelCalls: seq<string>)

  /** `/generate-description`. */
  function GenerateDescription(title: Option<string>, model: string -> string): (r: Reply)
    ensures !Truthy(title) ==> r == Reply(400, Error(TitleRequired), [])
    ensures Truthy(title) ==> r == Reply(200, Description(model(title.value)), [title.value])
  {
    if !Truthy(title) then Reply(400, Error(TitleRequired), [])
    else Reply(200, Description(model(title.value)), [title.value])
  }

  /** `/generate-prefix`: the answer is always one of the listed prefixes. */
  function GeneratePrefix(title: Option<string>, model: string -> string): (r: Reply)
    ensures !Truthy(title) ==> r == Reply(400, Error(TitleRequired), [])
    ensures Truthy(title) ==>
      && r.status == 200 && r.modelCalls == [title.value]
      && r.body == Prefix(SelectPrefix(model(title.value)))
      && r.body.prefix in Prefixes
  {
    if !Truthy(title) then Reply(400, Error(TitleRequired), [])
    else Reply(200, Prefix(SelectPrefix(model(title.value))), [title.value])
  }
}
