/**
 * Response assembly: `CDPChatbot.generate_response` (single-platform
 * answers) and `CDPChatbot.handle_comparison_question` (comparisons).
 *
 * The retriever, `find_most_relevant_docs` applied to a question and a
 * platform, is a parameter: any total function from (question, platform)
 * to a list of fragments. `Ranking.MostRelevantDocs` describes what the
 * source's retriever returns for given similarity scores.
 */
module Responses {
  import opened Wrappers
  import opened Text
  import opened Classifier
  import opened Ranking

  /** `find_most_relevant_docs(question, cdp)`. */
  type Retriever = (string, string) -> seq<Fragment>

  // ---------------------------------------------------------------------
  // The fixed texts. Each is written as its opening word(s) followed by the
  // rest, so that proofs can read off the characters that tell them apart.
  // ---------------------------------------------------------------------

  const NotCdpReply: string :=
    "I can " + "only answer questions about Customer Data Platforms (CDPs). Please ask me about Segment, mParticle, Lytics, or Zeotap."

  const AskPlatformReply: string :=
    "Please " + "specify which CDP you're asking about (Segment, mParticle, Lytics, or Zeotap)."

  function NotFoundReply(cdp: string): string
  {
    "I couldn't " + "find specific information about that in the " + cdp + " documentation. Could you rephrase your question?"
  }

  function HowToHeader(cdp: string): string
  {
    "Here's " + "how to do that in " + cdp + ":\n\n"
  }

  const ComparePrompt: string :=
    "For " + "CDP comparisons, please mention the specific CDPs you'd like to compare."

  const ComparisonHeader: string := "Here's " + "a comparison:\n\n"

  // ---------------------------------------------------------------------
  // Single-platform answers
  // ---------------------------------------------------------------------

  /** The line `f"{i}. {doc['content']}\n"` for the fragment numbered `i`. */
  function NumberedLine(i: nat, doc: Fragment): string
  {
    NatToString(i) + ". " + doc.content + "\n"
  }

  /** One numbered line per fragment, numbering from 1 in retrieval order. */
  function NumberedLines(docs: seq<Fragment>): seq<string>
  {
    seq(|docs|, i requires 0 <= i < |docs| => NumberedLine(i + 1, docs[i]))
  }

  /** What `generate_response` returns for `question`. */
  function Answer(question: string, retrieve: Retriever): string
  {
    if !IsCdpQuestion(question) then NotCdpReply
    else match IdentifyCdp(question)
      case None => AskPlatformReply
      case Some(cdp) =>
        var docs := retrieve(question, cdp);
        if docs == [] then NotFoundReply(cdp) else Join(HowToHeader(cdp), NumberedLines(docs))
  }

  /** `generate_response`: classify, identify the platform, retrieve, and append one numbered line per fragment. */
  method GenerateResponse(question: string, retrieve: Retriever) returns (response: string)
    ensures response == Answer(question, retrieve)
  {
    if !IsCdpQuestion(question) {
      return NotCdpReply;
    }
    var cdp := IdentifyCdp(question);
    if cdp.None? {
      return AskPlatformReply;
    }
    var docs := retrieve(question, cdp.value);
    if |docs| == 0 {
      return NotFoundReply(cdp.value);
    }
    ghost var lines := NumberedLines(docs);
    response := HowToHeader(cdp.value);
    for i := 0 to |docs|
      invariant response == Join(HowToHeader(cdp.value), lines[..i])
    {
      response := response + NumberedLine(i + 1, docs[i]);
      JoinTake(HowToHeader(cdp.value), lines, i);
    }
    assert lines[..|docs|] == lines;
  }

  /** The four shapes of a `generate_response` reply are pairwise different. */
  lemma ReplyShapesDistinct(cdp: string, rest: seq<string>)
    ensures NotCdpReply != AskPlatformReply
    ensures NotCdpReply != NotFoundReply(cdp) && AskPlatformReply != NotFoundReply(cdp)
    ensures NotCdpReply != Join(HowToHeader(cdp), rest) && AskPlatformReply != Join(HowToHeader(cdp), rest)
    ensures NotFoundReply(cdp) != Join(HowToHeader(cdp), rest)
  {
    var listing := Join(HowToHeader(cdp), rest);
    JoinPrefix(HowToHeader(cdp), rest);
    assert listing[0] == listing[..|HowToHeader(cdp)|][0] == 'H';
    assert NotCdpReply[0] == 'I' && NotCdpReply[3] == 'a';
    assert AskPlatformReply[0] == 'P';
    assert NotFoundReply(cdp)[0] == 'I' && NotFoundReply(cdp)[3] == 'o';
  }

  /** The refusal comes back exactly for the questions that are not about CDPs. */
  lemma AnswerRefusesExactlyOffTopic(question: string, retrieve: Retriever)
    ensures Answer(question, retrieve) == NotCdpReply <==> !IsCdpQuestion(question)
  {
    if IsCdpQuestion(question) && IdentifyCdp(question).Some? {
      var cdp := IdentifyCdp(question).value;
      ReplyShapesDistinct(cdp, NumberedLines(retrieve(question, cdp)));
    } else {
      ReplyShapesDistinct("", []);
    }
  }

  /** A question about CDPs that names no platform gets the prompt to name one, and only such a question does. */
  lemma AnswerAsksForPlatformExactly(question: string, retrieve: Retriever)
    ensures Answer(question, retrieve) == AskPlatformReply
            <==> IsCdpQuestion(question) && forall p :: p in Platforms ==> !Occurs(p, Lower(question))
  {
    if IsCdpQuestion(question) && IdentifyCdp(question).Some? {
      var cdp := IdentifyCdp(question).value;
      ReplyShapesDistinct(cdp, NumberedLines(retrieve(question, cdp)));
    } else {
      ReplyShapesDistinct("", []);
    }
  }

  /** For a question about an identified platform, the apology comes back exactly when nothing is retrieved. */
  lemma AnswerNotFoundExactlyWhenNothingRetrieved(question: string, retrieve: Retriever, cdp: string)
    requires IsCdpQuestion(question) && IdentifyCdp(question) == Some(cdp)
    ensures Answer(question, retrieve) == NotFoundReply(cdp) <==> retrieve(question, cdp) == []
  {
    ReplyShapesDistinct(cdp, NumberedLines(retrieve(question, cdp)));
  }

  /** A numbered listing holds each fragment's line, and so each fragment's content. */
  lemma ListingHoldsFragment(header: string, docs: seq<Fragment>, k: nat)
    requires k < |docs|
    ensures Occurs(NumberedLine(k + 1, docs[k]), Join(header, NumberedLines(docs)))
    ensures Occurs(docs[k].content, Join(header, NumberedLines(docs)))
  {
    var lines := NumberedLines(docs);
    var number := NatToString(k + 1) + ". ";
    JoinHasPiece(header, lines, k);
    OccursRight(number, docs[k].content);
    OccursLeft(number + docs[k].content, "\n");
    OccursTrans(docs[k].content, number + docs[k].content, lines[k]);
    OccursTrans(docs[k].content, lines[k], Join(header, lines));
  }

  /** Every retrieved fragment of the identified platform appears, under its number, in the answer. */
  lemma AnswerListsEveryFragment(question: string, retrieve: Retriever, cdp: string, k: nat)
    requires IsCdpQuestion(question) && IdentifyCdp(question) == Some(cdp)
    requires k < |retrieve(question, cdp)|
    ensures Occurs(NumberedLine(k + 1, retrieve(question, cdp)[k]), Answer(question, retrieve))
    ensures Occurs(retrieve(question, cdp)[k].content, Answer(question, retrieve))
  {
    ListingHoldsFragment(HowToHeader(cdp), retrieve(question, cdp), k);
  }

  // ---------------------------------------------------------------------
  // Comparisons
  // ---------------------------------------------------------------------

  /** The line `f"- {doc['content']}\n"`. */
  function Bullet(doc: Fragment): string
  {
    "- " + doc.content + "\n"
  }

  function Bullets(docs: seq<Fragment>): seq<string>
  {
    seq(|docs|, i requires 0 <= i < |docs| => Bullet(docs[i]))
  }

  /** The line `f"{cdp.capitalize()}:\n"` that opens a platform's section. */
  function Label(cdp: string): string
  {
    Capitalize(cdp) + ":\n"
  }

  /** The labelled section of one platform: its label, one bullet per fragment, a blank line. */
  function Section(cdp: string, docs: seq<Fragment>): string
  {
    Join(Label(cdp), Bullets(docs)) + "\n"
  }

  function Sections(question: string, retrieve: Retriever, cdps: seq<string>): seq<string>
  {
    seq(|cdps|, i requires 0 <= i < |cdps| => Section(cdps[i], retrieve(question, cdps[i])))
  }

  /** What `handle_comparison_question` returns for `question`. */
  function Comparison(question: string, retrieve: Retriever): string
  {
    var cdps := Mentioned(question);
    if |cdps| < 2 then ComparePrompt
    else Join(ComparisonHeader, Sections(question, retrieve, cdps))
  }

  /** `handle_comparison_question`: one section per mentioned platform, built by appending. */
  method HandleComparison(question: string, retrieve: Retriever) returns (comparison: string)
    ensures comparison == Comparison(question, retrieve)
  {
    var cdps := Mentioned(question);
    if |cdps| < 2 {
      return ComparePrompt;
    }
    ghost var sections := Sections(question, retrieve, cdps);
    comparison := ComparisonHeader;
    for i := 0 to |cdps|
      invariant comparison == Join(ComparisonHeader, sections[..i])
    {
      ghost var before := comparison;
      var cdp := cdps[i];
      var docs := retrieve(question, cdp);
      ghost var bullets := Bullets(docs);
      comparison := comparison + Label(cdp);
      for j := 0 to |docs|
        invariant comparison == Join(before + Label(cdp), bullets[..j])
      {
        comparison := comparison + Bullet(docs[j]);
        JoinTake(before + Label(cdp), bullets, j);
      }
      assert bullets[..|docs|] == bullets;
      comparison := comparison + "\n";
      AppendSection(before, cdp, docs);
      JoinTake(ComparisonHeader, sections, i);
    }
    assert sections[..|cdps|] == sections;
  }

  /** Appending a label, its bullets and a blank line appends that platform's section. */
  lemma AppendSection(before: string, cdp: string, docs: seq<Fragment>)
    ensures Join(before + Label(cdp), Bullets(docs)) + "\n" == before + Section(cdp, docs)
  {
    var body := Join(Label(cdp), Bullets(docs));
    JoinPrepend(before, Label(cdp), Bullets(docs));
    assert (before + body) + "\n" == before + (body + "\n");
  }

  /** The prompt to name platforms comes back exactly when fewer than two are mentioned. */
  lemma ComparisonPromptsExactlyBelowTwo(question: string, retrieve: Retriever)
    ensures Comparison(question, retrieve) == ComparePrompt <==> |Mentioned(question)| < 2
  {
    if |Mentioned(question)| >= 2 {
      JoinPrefix(ComparisonHeader, Sections(question, retrieve, Mentioned(question)));
      assert Comparison(question, retrieve)[0] == Comparison(question, retrieve)[..|ComparisonHeader|][0] == 'H';
      assert ComparePrompt[0] == 'F';
    }
  }

  /** A section holds its label. */
  lemma SectionHoldsLabel(cdp: string, docs: seq<Fragment>)
    ensures Occurs(Label(cdp), Section(cdp, docs))
  {
    JoinHasStart(Label(cdp), Bullets(docs));
    OccursLeft(Join(Label(cdp), Bullets(docs)), "\n");
    OccursTrans(Label(cdp), Join(Label(cdp), Bullets(docs)), Section(cdp, docs));
  }

  /** A section holds the content of each of its fragments. */
  lemma SectionHoldsFragment(cdp: string, docs: seq<Fragment>, m: nat)
    requires m < |docs|
    ensures Occurs(docs[m].content, Section(cdp, docs))
  {
    var bullets := Bullets(docs);
    var body := Join(Label(cdp), bullets);
    JoinHasPiece(Label(cdp), bullets, m);
    OccursLeft(body, "\n");
    OccursTrans(bullets[m], body, Section(cdp, docs));
    OccursRight("- ", docs[m].content);
    OccursLeft("- " + docs[m].content, "\n");
    OccursTrans(docs[m].content, "- " + docs[m].content, bullets[m]);
    OccursTrans(docs[m].content, bullets[m], Section(cdp, docs));
  }

  /** With two or more platforms mentioned, each has its section in the comparison. */
  lemma ComparisonHoldsSection(question: string, retrieve: Retriever, k: nat)
    requires |Mentioned(question)| >= 2 && k < |Mentioned(question)|
    ensures Occurs(Section(Mentioned(question)[k], retrieve(question, Mentioned(question)[k])), Comparison(question, retrieve))
  {
    JoinHasPiece(ComparisonHeader, Sections(question, retrieve, Mentioned(question)), k);
  }

  /** With two or more platforms mentioned, each of them has its label in the comparison. */
  lemma ComparisonLabelsEveryPlatform(question: string, retrieve: Retriever, k: nat)
    requires |Mentioned(question)| >= 2 && k < |Mentioned(question)|
    ensures Occurs(Label(Mentioned(question)[k]), Comparison(question, retrieve))
  {
    var cdp := Mentioned(question)[k];
    ComparisonHoldsSection(question, retrieve, k);
    SectionHoldsLabel(cdp, retrieve(question, cdp));
    OccursTrans(Label(cdp), Section(cdp, retrieve(question, cdp)), Comparison(question, retrieve));
  }

  /** With two or more platforms mentioned, every fragment retrieved for each of them appears in the comparison. */
  lemma ComparisonListsEveryFragment(question: string, retrieve: Retriever, k: nat, m: nat)
    requires |Mentioned(question)| >= 2 && k < |Mentioned(question)|
    requires m < |retrieve(question, Mentioned(question)[k])|
    ensures Occurs(retrieve(question, Mentioned(question)[k])[m].content, Comparison(question, retrieve))
  {
    var cdp := Mentioned(question)[k];
    var docs := retrieve(question, cdp);
    ComparisonHoldsSection(question, retrieve, k);
    SectionHoldsFragment(cdp, docs, m);
    OccursTrans(docs[m].content, Section(cdp, docs), Comparison(question, retrieve));
  }
}
