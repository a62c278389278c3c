/** Answering a question from retrieved passages (src/rag.py): the
    short-circuit on an empty retrieval, the context block handed to the
    language model, and the citations found in its answer. The vector index
    search and the language model are oracles passed to `Query`; the prompt
    template and the chain around the model are not part of this model. */
module Rag {
  import opened Common
  import opened Strings
  import opened VectorDb

  /** The canned answer when nothing was retrieved. */
  const NoInformation: string := "I don't have enough information to answer that question."

  /** One cited passage: its `source` and `title` metadata and its score. */
  datatype Citation = Citation(source: Value, title: Value, score: real)

  /** The answer returned to the chat front end. */
  datatype Answer = Answer(content: string, citations: seq<Citation>)

  /** The settings of the chat model client. */
  datatype LlmConfig = LlmConfig(model: string, temperature: real, maxTokens: nat, responseFormat: string)

  /** What the model is asked: the context block and the question. */
  datatype LlmRequest = LlmRequest(context: string, question: string)

  /** A configured answering system. */
  datatype RagSystem = RagSystem(llm: LlmConfig)

  /** Only the "openai" provider is supported; it is configured for greedy
      decoding, at most 2000 tokens and plain-text output. */
  function InitializeLlm(provider: string): (r: Result<LlmConfig>)
    ensures r.Ok? <==> provider == "openai"
    ensures r.Ok? ==> r.value.temperature == 0.0 && r.value.maxTokens == 2000 && r.value.responseFormat == "text"
    ensures r.Err? ==> r.error == ValueError("Unsupported LLM provider: " + provider)
  {
    if provider == "openai" then Ok(LlmConfig("gpt-4.1-nano", 0.0, 2000, "text"))
    else Err(ValueError("Unsupported LLM provider: " + provider))
  }

  /** `RAGSystem(vector_db, llm_provider, api_key)`: fails exactly when the
      provider is not supported. */
  function NewRagSystem(provider: string, apiKey: string): (r: Result<RagSystem>)
    ensures r.Ok? <==> provider == "openai"
    ensures r.Err? ==> r.error == ValueError("Unsupported LLM provider: " + provider)
  {
    match InitializeLlm(provider)
    case Ok(llm) => Ok(RagSystem(llm))
    case Err(e) => Err(e)
  }

  // ---------------------------------------------------------------------------
  // Context block

  predicate AllTitled(results: seq<SearchResult>)
  {
    forall i :: 0 <= i < |results| ==> "title" in results[i].metadata
  }

  /** The context entry for the result shown at 1-based `position`. */
  function Entry(position: nat, r: SearchResult): string
    requires "title" in r.metadata
  {
    "Source " + NatToString(position) + " (" + Display(r.metadata["title"]) + "):\n" + r.content + "\n"
  }

  function ContextParts(results: seq<SearchResult>): seq<string>
    requires AllTitled(results)
  {
    seq(|results|, i requires 0 <= i < |results| && AllTitled(results) => Entry(i + 1, results[i]))
  }

  /** The context block: the entries in result order joined by newlines, or
      the KeyError raised by a result without a title. */
  function ContextBlock(results: seq<SearchResult>): Result<string>
  {
    if AllTitled(results) then Ok(Join(ContextParts(results), "\n")) else Err(KeyError("title"))
  }

  method FormatContext(searchResults: seq<SearchResult>) returns (r: Result<string>)
    ensures r == ContextBlock(searchResults)
  {
    var parts: seq<string> := [];
    for i := 0 to |searchResults|
      invariant AllTitled(searchResults[..i])
      invariant |parts| == i
      invariant forall j :: 0 <= j < i ==> "title" in searchResults[j].metadata && parts[j] == Entry(j + 1, searchResults[j])
    {
      var result := searchResults[i];
      if "title" !in result.metadata {
        assert !AllTitled(searchResults);
        return Err(KeyError("title"));
      }
      parts := parts + ["Source " + NatToString(i + 1) + " (" + Display(result.metadata["title"]) + "):\n" + result.content + "\n"];
    }
    assert searchResults[..|searchResults|] == searchResults;
    assert parts == ContextParts(searchResults);
    r := Ok(Join(parts, "\n"));
  }

  /** The model sees every retrieved passage: each entry, and so each
      passage's content, occurs in the context block. */
  lemma ContextShowsEveryPassage(results: seq<SearchResult>)
    requires AllTitled(results)
    ensures ContextBlock(results).Ok?
    ensures forall j :: 0 <= j < |results| ==>
              Contains(ContextBlock(results).value, Entry(j + 1, results[j])) &&
              Contains(ContextBlock(results).value, results[j].content)
  {
    var parts := ContextParts(results);
    var block := Join(parts, "\n");
    forall j | 0 <= j < |results|
      ensures Contains(block, Entry(j + 1, results[j])) && Contains(block, results[j].content)
    {
      JoinContainsPart(parts, "\n", j);
      var r := results[j];
      var head := "Source " + NatToString(j + 1) + " (" + Display(r.metadata["title"]) + "):\n";
      ContainsSelf(r.content);
      ContainsExtend(head, r.content, "\n", r.content);
      assert head + r.content + "\n" == parts[j];
      ContainsWithin(block, parts[j], r.content);
    }
  }

  /** A substring of a substring is a substring. */
  lemma ContainsWithin(text: string, mid: string, pat: string)
    requires Contains(text, mid) && Contains(mid, pat)
    ensures Contains(text, pat)
  {
    var i :| 0 <= i <= |text| - |mid| && OccursAt(text, mid, i);
    var k :| 0 <= k <= |mid| - |pat| && OccursAt(mid, pat, k);
    forall t | 0 <= t < |pat|
      ensures text[i + k + t] == pat[t]
    {
      assert mid[k..k + |pat|][t] == pat[t];
      assert text[i..i + |mid|][k + t] == mid[k + t];
    }
    assert text[i + k..i + k + |pat|] == pat;
    assert OccursAt(text, pat, i + k);
  }

  /** One result gives one entry, numbered 1. */
  lemma SingleResultContext(r: SearchResult)
    requires "title" in r.metadata
    ensures ContextBlock([r]) == Ok("Source 1 (" + Display(r.metadata["title"]) + "):\n" + r.content + "\n")
  {
    assert DigitChar(1) == '1';
    assert NatToString(1) == "1";
    assert AllTitled([r]);
    assert ContextParts([r]) == [Entry(1, r)];
    assert Join([Entry(1, r)], "\n") == Entry(1, r);
    assert Entry(1, r) == "Source 1 (" + Display(r.metadata["title"]) + "):\n" + r.content + "\n";
  }

  // ---------------------------------------------------------------------------
  // Citations

  /** A result can be turned into a citation when its metadata holds both a
      source and a title. */
  predicate Citable(r: SearchResult)
  {
    "source" in r.metadata && "title" in r.metadata
  }

  function Cite(r: SearchResult): Citation
    requires Citable(r)
  {
    Citation(r.metadata["source"], r.metadata["title"], r.score)
  }

  /** The citations of an answer: every result whose content occurs in the
      answer, in retrieval order; a KeyError when such a result lacks its
      source or title. */
  function CitationsOf(answer: string, results: seq<SearchResult>): Result<seq<Citation>>
  {
    if |results| == 0 then Ok([])
    else
      match CitationsOf(answer, results[..|results| - 1])
      case Err(e) => Err(e)
      case Ok(cs) =>
        var r := results[|results| - 1];
        if !Contains(answer, r.content) then Ok(cs)
        else if "source" !in r.metadata then Err(KeyError("source"))
        else if "title" !in r.metadata then Err(KeyError("title"))
        else Ok(cs + [Cite(r)])
  }

  method ExtractCitations(answer: string, searchResults: seq<SearchResult>) returns (r: Result<seq<Citation>>)
    ensures r == CitationsOf(answer, searchResults)
  {
    var citations: seq<Citation> := [];
    for i := 0 to |searchResults|
      invariant CitationsOf(answer, searchResults[..i]) == Ok(citations)
    {
      assert searchResults[..i + 1][..i] == searchResults[..i];
      var result := searchResults[i];
      if Contains(answer, result.content) {
        if "source" !in result.metadata {
          CitationsFailureSticks(answer, searchResults[..i + 1], searchResults[i + 1..]);
          assert searchResults[..i + 1] + searchResults[i + 1..] == searchResults;
          return Err(KeyError("source"));
        }
        if "title" !in result.metadata {
          CitationsFailureSticks(answer, searchResults[..i + 1], searchResults[i + 1..]);
          assert searchResults[..i + 1] + searchResults[i + 1..] == searchResults;
          return Err(KeyError("title"));
        }
        citations := citations + [Citation(result.metadata["source"], result.metadata["title"], result.score)];
      }
    }
    assert searchResults[..|searchResults|] == searchResults;
    r := Ok(citations);
  }

  /** The first failure decides: results after it change nothing. */
  lemma {:induction false} CitationsFailureSticks(answer: string, xs: seq<SearchResult>, ys: seq<SearchResult>)
    requires CitationsOf(answer, xs).Err?
    ensures CitationsOf(answer, xs + ys) == CitationsOf(answer, xs)
    decreases |ys|
  {
    if |ys| == 0 {
      assert xs + ys == xs;
    } else {
      var init := ys[..|ys| - 1];
      assert (xs + ys)[..|xs + ys| - 1] == xs + init;
      CitationsFailureSticks(answer, xs, init);
    }
  }

  /** Extraction fails exactly when a result whose content occurs in the
      answer lacks a source or a title. */
  lemma {:induction false} CitationsFail(answer: string, results: seq<SearchResult>)
    ensures CitationsOf(answer, results).Err? <==>
              exists j :: 0 <= j < |results| && Contains(answer, results[j].content) && !Citable(results[j])
  {
    if |results| > 0 {
      var init := results[..|results| - 1];
      CitationsFail(answer, init);
      if exists j :: 0 <= j < |init| && Contains(answer, init[j].content) && !Citable(init[j]) {
        var j :| 0 <= j < |init| && Contains(answer, init[j].content) && !Citable(init[j]);
        assert results[j] == init[j];
      }
      if exists j :: 0 <= j < |results| && Contains(answer, results[j].content) && !Citable(results[j]) {
        var j :| 0 <= j < |results| && Contains(answer, results[j].content) && !Citable(results[j]);
        if j < |init| {
          assert init[j] == results[j];
        }
      }
    }
  }

  /** A result is cited exactly when its content occurs in the answer: every
      citation comes from such a result, and every such result is cited. */
  lemma {:induction false} CitedIff(answer: string, results: seq<SearchResult>, c: Citation)
    requires CitationsOf(answer, results).Ok?
    ensures c in CitationsOf(answer, results).value <==>
              exists j :: 0 <= j < |results| && Contains(answer, results[j].content) &&
                          Citable(results[j]) && c == Cite(results[j])
  {
    if |results| > 0 {
      var init := results[..|results| - 1];
      var r := results[|results| - 1];
      CitedIff(answer, init, c);
      if exists j :: 0 <= j < |init| && Contains(answer, init[j].content) && Citable(init[j]) && c == Cite(init[j]) {
        var j :| 0 <= j < |init| && Contains(answer, init[j].content) && Citable(init[j]) && c == Cite(init[j]);
        assert results[j] == init[j];
      }
      if exists j :: 0 <= j < |results| && Contains(answer, results[j].content) && Citable(results[j]) && c == Cite(results[j]) {
        var j :| 0 <= j < |results| && Contains(answer, results[j].content) && Citable(results[j]) && c == Cite(results[j]);
        if j < |init| {
          assert init[j] == results[j];
        }
      }
    }
  }

  /** How many results have their content in the answer. */
  function ContainedCount(answer: string, results: seq<SearchResult>): nat
  {
    if |results| == 0 then 0
    else ContainedCount(answer, results[..|results| - 1]) + if Contains(answer, results[|results| - 1].content) then 1 else 0
  }

  /** One citation per contained result, duplicates included, so never more
      citations than results, and as many only when every result is cited. */
  lemma {:induction false} CitationsCount(answer: string, results: seq<SearchResult>)
    requires CitationsOf(answer, results).Ok?
    ensures |CitationsOf(answer, results).value| == ContainedCount(answer, results) <= |results|
    ensures |CitationsOf(answer, results).value| == |results| <==>
              forall j :: 0 <= j < |results| ==> Contains(answer, results[j].content)
  {
    if |results| > 0 {
      var init := results[..|results| - 1];
      CitationsCount(answer, init);
      assert forall j :: 0 <= j < |init| ==> init[j] == results[j];
    }
  }

  /** Citations keep retrieval order: citing a concatenation cites the first
      part, then the second. */
  lemma {:induction false} CitationsAppend(answer: string, xs: seq<SearchResult>, ys: seq<SearchResult>)
    requires CitationsOf(answer, xs).Ok? && CitationsOf(answer, ys).Ok?
    ensures CitationsOf(answer, xs + ys) == Ok(CitationsOf(answer, xs).value + CitationsOf(answer, ys).value)
    decreases |ys|
  {
    if |ys| == 0 {
      assert xs + ys == xs;
      assert CitationsOf(answer, xs).value + [] == CitationsOf(answer, xs).value;
    } else {
      var init := ys[..|ys| - 1];
      var r := ys[|ys| - 1];
      assert (xs + ys)[..|xs + ys| - 1] == xs + init;
      assert (xs + ys)[|xs + ys| - 1] == r;
      assert CitationsOf(answer, init).Ok?;
      CitationsAppend(answer, xs, init);
      var cx, ci := CitationsOf(answer, xs).value, CitationsOf(answer, init).value;
      if Contains(answer, r.content) {
        assert CitationsOf(answer, ys).value == ci + [Cite(r)];
        assert (cx + ci) + [Cite(r)] == cx + (ci + [Cite(r)]);
      }
    }
  }

  /** A passage with empty content occurs in every answer, so it is always
      cited. */
  lemma EmptyContentCited(answer: string, r: SearchResult)
    requires r.content == "" && Citable(r)
    ensures CitationsOf(answer, [r]) == Ok([Cite(r)])
  {
    ContainsEmpty(answer);
    CiteAlone(answer, r);
  }

  /** A single quoted, citable passage is cited. */
  lemma CiteAlone(answer: string, r: SearchResult)
    requires Citable(r) && Contains(answer, r.content)
    ensures CitationsOf(answer, [r]) == Ok([Cite(r)])
  {
    assert [r][..0] == [];
    var none: seq<Citation> := [];
    assert none + [Cite(r)] == [Cite(r)];
  }

  /** Of two passages, only the one quoted verbatim in the answer is cited,
      whichever order they were retrieved in. */
  lemma OneQuotedPassage(answer: string, quoted: SearchResult, other: SearchResult)
    requires Citable(quoted) && Contains(answer, quoted.content) && !Contains(answer, other.content)
    ensures CitationsOf(answer, [quoted, other]) == Ok([Cite(quoted)])
    ensures CitationsOf(answer, [other, quoted]) == Ok([Cite(quoted)])
  {
    CiteAlone(answer, quoted);
    assert [other][..0] == [];
    assert CitationsOf(answer, [other]) == Ok([]);
    assert [quoted, other][..1] == [quoted];
    assert [other, quoted][..1] == [other];
    var none: seq<Citation> := [];
    assert none + [Cite(quoted)] == [Cite(quoted)];
  }

  // ---------------------------------------------------------------------------
  // Query

  /** `query(question, k)`. `search` stands for the vector index, whose
      failure ends the query before anything else happens, and `generate`
      for the chat model; `request` is the one request the model receives,
      if any. */
  method Query(system: RagSystem, question: string, k: int,
               search: (string, int) -> Result<seq<SearchResult>>,
               generate: (LlmConfig, LlmRequest) -> string)
    returns (answer: Result<Answer>, request: Option<LlmRequest>)
    ensures search(question, k).Err? ==> answer == Err(search(question, k).error) && request == None
    ensures search(question, k) == Ok([]) ==> answer == Ok(Answer(NoInformation, [])) && request == None
    ensures search(question, k).Ok? && search(question, k).value != [] && !AllTitled(search(question, k).value) ==>
              answer == Err(KeyError("title")) && request == None
    ensures search(question, k).Ok? ==>
            var results := search(question, k).value;
            results != [] && AllTitled(results) ==>
              var sent := LlmRequest(Join(ContextParts(results), "\n"), question);
              var text := generate(system.llm, sent);
              request == Some(sent) &&
              (answer.Ok? <==> CitationsOf(text, results).Ok?) &&
              (answer.Ok? ==> answer.value.content == text && Ok(answer.value.citations) == CitationsOf(text, results)) &&
              (answer.Err? ==> Err(answer.error) == CitationsOf(text, results))
  {
    var found := search(question, k);
    if found.Err? {
      return Err(found.error), None;
    }
    var searchResults := found.value;
    if |searchResults| == 0 {
      return Ok(Answer(NoInformation, [])), None;
    }
    var context := FormatContext(searchResults);
    if context.Err? {
      return Err(context.error), None;
    }
    request := Some(LlmRequest(context.value, question));
    var answerText := generate(system.llm, request.value);
    var citations := ExtractCitations(answerText, searchResults);
    match citations
    case Err(e) =>
      answer := Err(e);
    case Ok(cs) =>
      answer := Ok(Answer(answerText, cs));
  }
}
