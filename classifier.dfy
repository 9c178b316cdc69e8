/**
 * Question classification (`CDPChatbot.is_cdp_question`,
 * `CDPChatbot.identify_cdp` and the list of mentioned platforms used by
 * `handle_comparison_question`).
 */
module Classifier {
  import opened Wrappers
  import opened Text
  import opened Seqs

  /** The four platforms, in the order of both the `cdps` list and the `docs` dictionary keys. */
  const Platforms: seq<string> := ["segment", "mparticle", "lytics", "zeotap"]

  /** The in-domain keywords: the platform names and a few CDP terms. */
  const Keywords: seq<string> :=
    ["cdp", "customer data platform", "segment", "mparticle",
     "lytics", "zeotap", "integration", "source", "audience",
     "profile", "data"]

  /** `is_cdp_question`: some keyword is a substring of the lower-cased question. */
  predicate IsCdpQuestion(question: string)
    ensures IsCdpQuestion(question) <==> exists k :: k in Keywords && Occurs(k, Lower(question))
  {
    exists k | k in Keywords :: Contains(Lower(question), k)
  }

  /** The first of `names`, in list order, that occurs in `text`. */
  function FirstMatch(names: seq<string>, text: string): (r: Option<string>)
    ensures r.None? <==> forall i :: 0 <= i < |names| ==> !Occurs(names[i], text)
    ensures r.Some? ==> exists i :: 0 <= i < |names| && names[i] == r.value && Occurs(names[i], text)
                                     && forall j :: 0 <= j < i ==> !Occurs(names[j], text)
  {
    if names == [] then None
    else if Contains(text, names[0]) then Some(names[0])
    else
      var r := FirstMatch(names[1..], text);
      FirstMatchStep(names, text, r);
      r
  }

  /** A first match in `names[1..]` is a first match in `names` when `names[0]` does not occur. */
  lemma FirstMatchStep(names: seq<string>, text: string, r: Option<string>)
    requires names != [] && !Occurs(names[0], text)
    requires r.None? <==> forall i :: 0 <= i < |names[1..]| ==> !Occurs(names[1..][i], text)
    requires r.Some? ==> exists i :: 0 <= i < |names[1..]| && names[1..][i] == r.value && Occurs(names[1..][i], text)
                                       && forall j :: 0 <= j < i ==> !Occurs(names[1..][j], text)
    ensures r.None? <==> forall i :: 0 <= i < |names| ==> !Occurs(names[i], text)
    ensures r.Some? ==> exists i :: 0 <= i < |names| && names[i] == r.value && Occurs(names[i], text)
                                     && forall j :: 0 <= j < i ==> !Occurs(names[j], text)
  {
    if r.Some? {
      var i :| 0 <= i < |names[1..]| && names[1..][i] == r.value && Occurs(names[1..][i], text)
               && forall j :: 0 <= j < i ==> !Occurs(names[1..][j], text);
      forall j | 0 <= j < i + 1 ensures !Occurs(names[j], text) {
        if j > 0 { assert names[j] == names[1..][j - 1]; }
      }
      assert names[i + 1] == r.value && Occurs(names[i + 1], text);
    } else {
      forall i | 0 <= i < |names| ensures !Occurs(names[i], text) {
        if i > 0 { assert names[i] == names[1..][i - 1]; }
      }
    }
  }

  /** `identify_cdp`: the first platform, in the fixed order, whose name occurs in the lower-cased question. */
  function IdentifyCdp(question: string): (r: Option<string>)
    ensures r.None? <==> forall p :: p in Platforms ==> !Occurs(p, Lower(question))
    ensures r.Some? ==> exists i :: 0 <= i < |Platforms| && Platforms[i] == r.value && Occurs(r.value, Lower(question))
                                     && forall j :: 0 <= j < i ==> !Occurs(Platforms[j], Lower(question))
  {
    FirstMatch(Platforms, Lower(question))
  }

  /** The elements of `names` that occur in `text`, in the order of `names`. */
  function Filter(names: seq<string>, text: string): (r: seq<string>)
    ensures forall x :: x in r <==> x in names && Occurs(x, text)
    ensures IsSubsequence(r, names)
  {
    if names == [] then []
    else
      var rest := Filter(names[1..], text);
      if Contains(text, names[0]) then [names[0]] + rest
      else rest
  }

  /** The `cdps_mentioned` list of `handle_comparison_question`. */
  function Mentioned(question: string): (r: seq<string>)
    ensures forall p :: p in r <==> p in Platforms && Occurs(p, Lower(question))
    ensures IsSubsequence(r, Platforms)
  {
    Filter(Platforms, Lower(question))
  }

  /**
   * The list of mentioned platforms is the only list holding exactly the
   * platforms that occur in the lower-cased question in platform-list order.
   */
  lemma MentionedIsDetermined(question: string, ps: seq<string>)
    requires IsSubsequence(ps, Platforms)
    requires forall p :: p in ps <==> p in Platforms && Occurs(p, Lower(question))
    ensures ps == Mentioned(question)
  {
    assert Distinct(Platforms);
    SubsequenceUnique(ps, Mentioned(question), Platforms);
  }

  /** Every platform name is also an in-domain keyword. */
  lemma PlatformsAreKeywords()
    ensures forall p :: p in Platforms ==> p in Keywords
  {
  }

  /** Whenever `identify_cdp` names a platform, `is_cdp_question` holds. */
  lemma IdentifiedIsCdpQuestion(question: string)
    requires IdentifyCdp(question).Some?
    ensures IsCdpQuestion(question)
  {
    var p := IdentifyCdp(question).value;
    PlatformsAreKeywords();
    assert p in Keywords && Occurs(p, Lower(question));
  }

  /** The platform `identify_cdp` picks is the first of the mentioned platforms, and there is none exactly when none is mentioned. */
  lemma {:induction false} FirstMatchIsFirstFiltered(names: seq<string>, text: string)
    ensures FirstMatch(names, text) == if Filter(names, text) == [] then None else Some(Filter(names, text)[0])
  {
    if names != [] && !Contains(text, names[0]) {
      FirstMatchIsFirstFiltered(names[1..], text);
    }
  }

  lemma IdentifyIsFirstMentioned(question: string)
    ensures IdentifyCdp(question) == if Mentioned(question) == [] then None else Some(Mentioned(question)[0])
  {
    FirstMatchIsFirstFiltered(Platforms, Lower(question));
  }

  /**
   * The order is that of the platform list, not of the question: a question
   * naming zeotap before segment is still about segment.
   */
  lemma ListOrderWins()
    ensures IdentifyCdp("zeotap or segment?") == Some("segment")
  {
    var q := Lower("zeotap or segment?");
    assert q == "zeotap or segment?";
    assert OccursAt("segment", q, 10);
  }
}
