/**
 * The interactive loop of `main`: each input line either ends the session,
 * goes to comparison mode or goes to the single-platform pipeline.
 *
 * Console input becomes a sequence of lines and the printed replies the
 * returned sequence; the prompt text and the start-up banner are not modelled.
 */
module Chat {
  import opened Text
  import opened Classifier
  import opened Responses

  /** Where `main` sends a line. */
  datatype Route = Quit | Compare | Single

  /** The routing decision of `main` for one input line. */
  function RouteOf(line: string): (r: Route)
    ensures r == Quit <==> Lower(line) == "quit"
    ensures r == Compare <==> Lower(line) != "quit" && (Occurs("compare", Lower(line)) || Occurs("difference", Lower(line)))
  {
    var l := Lower(line);
    if l == "quit" then Quit
    else if Contains(l, "compare") || Contains(l, "difference") then Compare
    else Single
  }

  /** The reply printed for a line that does not end the session. */
  function Reply(line: string, retrieve: Retriever): string
  {
    if RouteOf(line) == Compare then Comparison(line, retrieve) else Answer(line, retrieve)
  }

  /**
   * The lines a loop prints when it replies to each input line with `reply`,
   * in order, up to the first line that lower-cases to "quit" or the end of
   * the input.
   */
  function Transcript(lines: seq<string>, reply: string -> string): seq<string>
  {
    if lines == [] || RouteOf(lines[0]) == Quit then []
    else [reply(lines[0])] + Transcript(lines[1..], reply)
  }

  /**
   * Every printed line answers the input line at the same position, none of
   * those input lines is "quit", and the loop stops early only at a "quit" line.
   */
  lemma {:induction false} TranscriptRepliesInOrder(lines: seq<string>, reply: string -> string)
    ensures |Transcript(lines, reply)| <= |lines|
    ensures forall i :: 0 <= i < |Transcript(lines, reply)| ==>
              RouteOf(lines[i]) != Quit && Transcript(lines, reply)[i] == reply(lines[i])
    ensures |Transcript(lines, reply)| < |lines| ==> RouteOf(lines[|Transcript(lines, reply)|]) == Quit
  {
    if lines != [] && RouteOf(lines[0]) != Quit {
      TranscriptRepliesInOrder(lines[1..], reply);
      forall i | 1 <= i < |Transcript(lines, reply)|
        ensures RouteOf(lines[i]) != Quit && Transcript(lines, reply)[i] == reply(lines[i])
      {
        assert lines[i] == lines[1..][i - 1];
      }
    }
  }

  /** The replies `main` prints for the input lines. */
  function Session(lines: seq<string>, retrieve: Retriever): seq<string>
  {
    Transcript(lines, line => Reply(line, retrieve))
  }

  /** `main` replies to each line before the first "quit", in order, and to no other line. */
  lemma SessionRepliesInOrder(lines: seq<string>, retrieve: Retriever)
    ensures |Session(lines, retrieve)| <= |lines|
    ensures forall i :: 0 <= i < |Session(lines, retrieve)| ==>
              RouteOf(lines[i]) != Quit && Session(lines, retrieve)[i] == Reply(lines[i], retrieve)
    ensures |Session(lines, retrieve)| < |lines| ==> RouteOf(lines[|Session(lines, retrieve)|]) == Quit
  {
    TranscriptRepliesInOrder(lines, line => Reply(line, retrieve));
  }

  /** `main`'s `while True` loop over the input lines. */
  method Run(lines: seq<string>, retrieve: Retriever) returns (replies: seq<string>)
    ensures replies == Session(lines, retrieve)
  {
    ghost var reply := line => Reply(line, retrieve);
    replies := [];
    var n := 0;
    while n < |lines|
      invariant n <= |lines|
      invariant Transcript(lines, reply) == replies + Transcript(lines[n..], reply)
    {
      var question := lines[n];
      var lowered := Lower(question);
      if lowered == "quit" {
        break;
      }
      var response := Respond(question, retrieve);
      assert lines[n..][1..] == lines[n + 1..];
      replies := replies + [response];
      n := n + 1;
    }
  }

  /** The body of `main`'s loop for a line that does not end the session. */
  method Respond(question: string, retrieve: Retriever) returns (response: string)
    requires RouteOf(question) != Quit
    ensures response == Reply(question, retrieve)
  {
    var lowered := Lower(question);
    if Contains(lowered, "compare") || Contains(lowered, "difference") {
      response := HandleComparison(question, retrieve);
    } else {
      response := GenerateResponse(question, retrieve);
    }
  }

  /** Each keyword holds a letter that "compare" lacks. */
  lemma NoKeywordInCompare(l: string)
    requires l == "compare"
    ensures forall k :: k in Keywords ==> !Occurs(k, l)
  {
    NoPlatformInCompare(l);
    MissingCharNotOccurs("cdp", l, 'd');
    MissingCharNotOccurs("customer data platform", l, 'u');
    MissingCharNotOccurs("integration", l, 'i');
    MissingCharNotOccurs("source", l, 's');
    MissingCharNotOccurs("audience", l, 'u');
    MissingCharNotOccurs("profile", l, 'f');
    MissingCharNotOccurs("data", l, 'd');
  }

  lemma NoPlatformInCompare(l: string)
    requires l == "compare"
    ensures !Occurs("segment", l) && !Occurs("mparticle", l) && !Occurs("lytics", l) && !Occurs("zeotap", l)
  {
    MissingCharNotOccurs("segment", l, 's');
    MissingCharNotOccurs("mparticle", l, 't');
    MissingCharNotOccurs("lytics", l, 'l');
    MissingCharNotOccurs("zeotap", l, 'z');
  }

  /**
   * Comparison mode skips the domain check: "compare" holds no keyword, so
   * the single-platform pipeline would refuse it, yet it is routed to
   * comparison mode and gets the comparison prompt.
   */
  lemma CompareSkipsDomainCheck(retrieve: Retriever)
    ensures RouteOf("compare") == Compare
    ensures !IsCdpQuestion("compare") && Answer("compare", retrieve) == NotCdpReply
    ensures Reply("compare", retrieve) == ComparePrompt
  {
    var l := Lower("compare");
    assert l == "compare";
    assert OccursAt("compare", l, 0);
    NoKeywordInCompare(l);
    PlatformsAreKeywords();
    assert Mentioned("compare") == [];
  }
}
