/** The chat endpoint of final/backend/Chat.py (`process_chat`): one finding line and one
    block of medical context per detection, the conversation history, a call to the language
    model, and (unless the model could not be reached) a spoken summary. The language model,
    the sentence embeddings, the speech synthesiser and the `.1f` formatting are parameters;
    every call to the model or the synthesiser is recorded in a returned trace. */
module Chat {
  import opened Wrappers
  import opened SeqUtil
  import opened Sorting

  /** The phrase `process_chat` looks for to detect a failed model request. */
  const CONNECTION_FAILURE: string := "unable to connect"

  const FAILURE_HEAD: string := "I'm currently "
  const FAILURE_TAIL: string := " to my AI brain (Ollama). Please ensure the service is running locally!"

  /** What `ask_llama` returns when the request raises. */
  const FAILURE_REPLY: string := FAILURE_HEAD + CONNECTION_FAILURE + FAILURE_TAIL

  const AUDIO_PREFIX: string := "http://127.0.0.1:8000/output/"
  const NO_FINDINGS: string := "No visible abnormalities."
  const UNKNOWN_CLASS: string := "Unknown"

  /** One entry of the request's `detections` list; a missing key is None. */
  datatype ChatDetection = ChatDetection(className: Option<string>, confidence: Option<real>)

  /** The request body; `detections` is None when the detection dict has no such key. */
  datatype ChatRequest = ChatRequest(detections: Option<seq<ChatDetection>>, question: string, history: string)

  /** One entry of `medical_knowledge`, in dictionary order. */
  datatype KnowledgeEntry = KnowledgeEntry(key: string, text: string)

  /** The substrings a prompt is assembled from (the instruction prose is left out). */
  datatype Prompt =
    | ChatPrompt(findings: string, context: string, history: string)
    | SummaryPrompt(text: string)

  /** A call to an outside service. */
  datatype Call = Generate(prompt: Prompt) | Speak(text: string)

  datatype ChatResponse = ChatResponse(answer: string, audioUrl: Option<string>)

  // ---------------------------------------------------------------------------
  // ask_llama (lines 128-142)
  // ---------------------------------------------------------------------------

  /** The reply to `prompt`: the model's answer, or FAILURE_REPLY when the request raises
      (`generate` gives None). */
  function AskLlama(generate: Prompt -> Option<string>, prompt: Prompt): string
  {
    match generate(prompt)
    case None => FAILURE_REPLY
    case Some(answer) => answer
  }

  /** A failed request gives a reply that contains the failure phrase. */
  lemma AskLlamaFailure(generate: Prompt -> Option<string>, prompt: Prompt)
    requires generate(prompt).None?
    ensures Contains(AskLlama(generate, prompt), CONNECTION_FAILURE)
  {
    var n := |FAILURE_HEAD|;
    assert FAILURE_REPLY[n..n + |CONNECTION_FAILURE|] == CONNECTION_FAILURE;
    ContainsAt(FAILURE_REPLY, CONNECTION_FAILURE, n);
  }

  // ---------------------------------------------------------------------------
  // retrieve_fallback (lines 122-126)
  // ---------------------------------------------------------------------------

  /** `medical_knowledge[key]` when `key` is a key: the text of its first entry. */
  function Lookup(kb: seq<KnowledgeEntry>, key: string): Option<string>
  {
    if kb == [] then None
    else if kb[0].key == key then Some(kb[0].text)
    else Lookup(kb[1..], key)
  }

  predicate DistinctKeys(kb: seq<KnowledgeEntry>)
  {
    forall i, j :: 0 <= i < j < |kb| ==> kb[i].key != kb[j].key
  }

  /** A key is found exactly when some entry has it, and then it gives that entry's text
      (the only one, the keys of a dictionary being distinct). */
  lemma {:induction false} LookupSpec(kb: seq<KnowledgeEntry>, key: string)
    requires DistinctKeys(kb)
    ensures Lookup(kb, key).None? <==> forall i :: 0 <= i < |kb| ==> kb[i].key != key
    ensures forall i :: 0 <= i < |kb| && kb[i].key == key ==> Lookup(kb, key) == Some(kb[i].text)
  {
    if kb != [] {
      var tail := kb[1..];
      assert DistinctKeys(tail) by {
        forall i, j | 0 <= i < j < |tail| ensures tail[i].key != tail[j].key {
          assert tail[i] == kb[i + 1] && tail[j] == kb[j + 1];
        }
      }
      LookupSpec(tail, key);
      forall i | 0 < i < |kb| ensures kb[i] == tail[i - 1] { }
    }
  }

  /** `np.dot(knowledge_embeddings, query_embedding)`: the similarity of every knowledge text
      to the query. `similarity(text, query)` is the dot product of the two embeddings. */
  function Similarities(kb: seq<KnowledgeEntry>, query: string, similarity: (string, string) -> real): (r: seq<real>)
    ensures |r| == |kb| && forall i :: 0 <= i < |kb| ==> r[i] == similarity(kb[i].text, query)
  {
    seq(|kb|, i requires 0 <= i < |kb| => similarity(kb[i].text, query))
  }

  function Range(n: nat): (r: seq<nat>)
    ensures |r| == n && forall i :: 0 <= i < n ==> r[i] == i
  {
    seq(n, i => i)
  }

  /** Sorting indices highest key first by the negated score sorts them by ascending score. */
  function NegatedScore(scores: seq<real>): nat -> real
  {
    (i: nat) => if i < |scores| then -scores[i] else 0.0
  }

  /** `np.argsort(scores)`: the indices of `scores` in ascending order of score. NumPy does
      not fix the order of equal scores; this one keeps them in index order. */
  function Argsort(scores: seq<real>): seq<nat>
  {
    SortDesc(Range(|scores|), NegatedScore(scores))
  }

  /** `order` lists every index of `scores` once, in ascending order of score. */
  predicate IsArgsort(order: seq<nat>, scores: seq<real>)
  {
    && multiset(order) == multiset(Range(|scores|))
    && (forall i :: 0 <= i < |order| ==> order[i] < |scores|)
    && (forall i, j :: 0 <= i < j < |order| ==> scores[order[i]] <= scores[order[j]])
  }

  lemma ArgsortSpec(scores: seq<real>)
    ensures IsArgsort(Argsort(scores), scores)
  {
    var order, key := Argsort(scores), NegatedScore(scores);
    SortDescSorted(Range(|scores|), key);
    SortDescPermutation(Range(|scores|), key);
    forall i | 0 <= i < |order| ensures order[i] < |scores| {
      assert order[i] in multiset(Range(|scores|));
    }
    forall i, j | 0 <= i < j < |order| ensures scores[order[i]] <= scores[order[j]] {
      assert key(order[i]) >= key(order[j]);
    }
  }

  /** The indices `[-top_k:]` keeps: the last `top_k` of the order (all of them when `top_k`
      is 0, as `[-0:]` is the whole list). */
  function TopIndices(scores: seq<real>, topK: nat): seq<nat>
  {
    PySuffix(Argsort(scores), -(topK as int))
  }

  /** The texts of the most similar knowledge entries, least similar first. */
  function RetrieveFallback(kb: seq<KnowledgeEntry>, query: string, similarity: (string, string) -> real,
                            topK: nat): seq<string>
  {
    var top := TopIndices(Similarities(kb, query, similarity), topK);
    seq(|top|, k requires 0 <= k < |top| => if top[k] < |kb| then kb[top[k]].text else "")
  }

  /** For any ascending argsort, the last `topK` indices are `min(topK, n)` distinct indices
      whose scores are at least the score of every index left out. */
  lemma {:induction false} TopOfArgsort(order: seq<nat>, scores: seq<real>, topK: nat)
    requires IsArgsort(order, scores) && topK > 0
    ensures var top := PySuffix(order, -(topK as int));
      && |top| == (if topK < |scores| then topK else |scores|)
      && (forall t :: t in top ==> t < |scores|)
      && (forall i, j :: 0 <= i < j < |top| ==> top[i] != top[j])
      && (forall t, j :: t in top && 0 <= j < |scores| && j !in top ==> scores[j] <= scores[t])
  {
    var n := |scores|;
    ArgsortLength(order, scores);
    var cut := PyBound(n, -(topK as int));
    var top := order[cut..];
    assert |top| == if topK < n then topK else n;
    forall t | t in top ensures t < n {
      var b :| 0 <= b < |top| && top[b] == t;
      assert order[cut + b] == t;
    }
    forall i, j | 0 <= i < j < |top| ensures top[i] != top[j] {
      ArgsortDistinct(order, scores, cut + i, cut + j);
    }
    forall t, j | t in top && 0 <= j < n && j !in top ensures scores[j] <= scores[t] {
      TopDominates(order, scores, cut, t, j);
    }
  }

  /** An argsort has one entry per score. */
  lemma ArgsortLength(order: seq<nat>, scores: seq<real>)
    requires IsArgsort(order, scores)
    ensures |order| == |scores|
  {
    assert |order| == |multiset(order)| == |multiset(Range(|scores|))| == |scores|;
  }

  /** An index missing from the tail `order[cut..]` of an argsort scores no higher than any
      index in it. */
  lemma TopDominates(order: seq<nat>, scores: seq<real>, cut: nat, t: nat, j: nat)
    requires IsArgsort(order, scores) && cut <= |order|
    requires t in order[cut..] && j < |scores| && j !in order[cut..]
    ensures scores[j] <= scores[t]
  {
    assert j in multiset(Range(|scores|)) by {
      assert Range(|scores|)[j] == j;
    }
    var a :| 0 <= a < |order| && order[a] == j;
    var b :| cut <= b < |order| && order[b] == t;
  }

  /** An argsort lists no index twice. */
  lemma ArgsortDistinct(order: seq<nat>, scores: seq<real>, a: nat, b: nat)
    requires IsArgsort(order, scores) && a < b < |order|
    ensures order[a] != order[b]
  {
    var x := order[a];
    RangeUnique(|scores|, x);
    assert order == order[..b] + order[b..];
    assert order[..b][a] == x;
    assert multiset(order) == multiset(order[..b]) + multiset(order[b..]);
    assert multiset(order[..b])[x] >= 1;
  }

  /** Every index occurs once in Range. */
  lemma {:induction false} RangeUnique(n: nat, x: nat)
    requires x < n
    ensures multiset(Range(n))[x] == 1
  {
    if n > 0 {
      var r := Range(n);
      assert r == Range(n - 1) + [n - 1];
      if x < n - 1 {
        RangeUnique(n - 1, x);
      } else {
        RangeBelow(n - 1);
      }
    }
  }

  lemma RangeBelow(n: nat)
    ensures n !in multiset(Range(n))
  {
  }

  /** The indices `[-top_k:]` keeps: `min(top_k, n)` of them (all `n` for `top_k = 0`), each
      scoring at least as high as every index left out. */
  lemma TopIndicesSpec(scores: seq<real>, topK: nat)
    ensures var top := TopIndices(scores, topK);
      && |top| == (if topK == 0 || topK > |scores| then |scores| else topK)
      && (forall t :: t in top ==> t < |scores|)
      && (forall t, j :: t in top && 0 <= j < |scores| && j !in top ==> scores[j] <= scores[t])
  {
    var order := Argsort(scores);
    ArgsortSpec(scores);
    if topK > 0 {
      TopOfArgsort(order, scores, topK);
    } else {
      assert |order| == |multiset(order)| == |multiset(Range(|scores|))| == |scores|;
      assert TopIndices(scores, topK) == order;
      forall j | 0 <= j < |scores| ensures j in order {
        assert Range(|scores|)[j] == j;
        assert j in multiset(Range(|scores|));
      }
    }
  }

  /** With `top_k = 1` the fallback is the single knowledge text most similar to the query
      (when there is any knowledge at all). */
  lemma RetrieveBest(kb: seq<KnowledgeEntry>, query: string, similarity: (string, string) -> real)
    ensures |kb| == 0 ==> RetrieveFallback(kb, query, similarity, 1) == []
    ensures |kb| > 0 ==>
      exists m ::
        && 0 <= m < |kb|
        && RetrieveFallback(kb, query, similarity, 1) == [kb[m].text]
        && forall j :: 0 <= j < |kb| ==> similarity(kb[j].text, query) <= similarity(kb[m].text, query)
  {
    var scores := Similarities(kb, query, similarity);
    TopIndicesSpec(scores, 1);
    var top := TopIndices(scores, 1);
    var r := RetrieveFallback(kb, query, similarity, 1);
    if |kb| > 0 {
      var m := top[0];
      assert m in top;
      forall j | 0 <= j < |kb| ensures similarity(kb[j].text, query) <= similarity(kb[m].text, query) {
        if j != m {
          assert j !in top;
          assert scores[j] <= scores[m];
        }
      }
      assert |r| == 1 && r[0] == kb[m].text;
    }
  }

  /** The fallback returns `min(top_k, n)` texts of the knowledge table, and all `n` for
      `top_k = 0`. */
  lemma RetrieveCount(kb: seq<KnowledgeEntry>, query: string, similarity: (string, string) -> real, topK: nat)
    ensures var r := RetrieveFallback(kb, query, similarity, topK);
      && |r| == (if topK == 0 || topK > |kb| then |kb| else topK)
      && forall t :: t in r ==> exists i :: 0 <= i < |kb| && kb[i].text == t
  {
    var scores := Similarities(kb, query, similarity);
    TopIndicesSpec(scores, topK);
    var top := TopIndices(scores, topK);
    var r := RetrieveFallback(kb, query, similarity, topK);
    forall t | t in r ensures exists i :: 0 <= i < |kb| && kb[i].text == t {
      var k :| 0 <= k < |r| && r[k] == t;
      assert top[k] in top;
      assert kb[top[k]].text == t;
    }
  }

  // ---------------------------------------------------------------------------
  // process_chat (lines 189-249)
  // ---------------------------------------------------------------------------

  function ClassOf(d: ChatDetection): string
  {
    d.className.GetOr(UNKNOWN_CLASS)
  }

  function ConfidenceOf(d: ChatDetection): real
  {
    d.confidence.GetOr(0.0)
  }

  /** The finding line of one detection: its class and its confidence in percent, as
      formatted by `percent` (the `.1f` format). */
  function FindingLine(d: ChatDetection, percent: real -> string): string
  {
    ClassOf(d) + " (" + percent(ConfidenceOf(d) * 100.0) + "%)"
  }

  /** The `findings` list after the loop over `dets`. */
  function Findings(dets: seq<ChatDetection>, percent: real -> string): seq<string>
  {
    if dets == [] then [] else Findings(dets[..|dets| - 1], percent) + [FindingLine(dets[|dets| - 1], percent)]
  }

  /** One finding line per detection, in detection order. */
  lemma {:induction false} FindingsSpec(dets: seq<ChatDetection>, percent: real -> string)
    ensures |Findings(dets, percent)| == |dets|
    ensures forall k :: 0 <= k < |dets| ==> Findings(dets, percent)[k] == FindingLine(dets[k], percent)
  {
    if dets != [] {
      var init := dets[..|dets| - 1];
      FindingsSpec(init, percent);
      forall k | 0 <= k < |init| ensures init[k] == dets[k] { }
    }
  }

  /** The context of one detection: the knowledge text of its class when the class is a key,
      otherwise the most similar knowledge text. */
  function BlockFor(d: ChatDetection, kb: seq<KnowledgeEntry>, similarity: (string, string) -> real): seq<string>
  {
    match Lookup(kb, ClassOf(d))
    case Some(text) => [text]
    case None => RetrieveFallback(kb, ClassOf(d), similarity, 1)
  }

  /** The `context_blocks` list after the loop over `dets`. */
  function ContextBlocks(dets: seq<ChatDetection>, kb: seq<KnowledgeEntry>, similarity: (string, string) -> real): seq<string>
  {
    if dets == [] then []
    else ContextBlocks(dets[..|dets| - 1], kb, similarity) + BlockFor(dets[|dets| - 1], kb, similarity)
  }

  /** A detection whose class is a key contributes that key's text; any other contributes the
      most similar knowledge text. */
  lemma BlockForSpec(d: ChatDetection, kb: seq<KnowledgeEntry>, similarity: (string, string) -> real)
    requires DistinctKeys(kb)
    ensures forall i :: 0 <= i < |kb| && kb[i].key == ClassOf(d) ==> BlockFor(d, kb, similarity) == [kb[i].text]
    ensures (forall i :: 0 <= i < |kb| ==> kb[i].key != ClassOf(d)) && |kb| > 0 ==>
      exists m ::
        && 0 <= m < |kb|
        && BlockFor(d, kb, similarity) == [kb[m].text]
        && forall j :: 0 <= j < |kb| ==> similarity(kb[j].text, ClassOf(d)) <= similarity(kb[m].text, ClassOf(d))
  {
    LookupSpec(kb, ClassOf(d));
    RetrieveBest(kb, ClassOf(d), similarity);
  }

  /** With a non-empty knowledge table every detection contributes exactly one block, and
      every block is a knowledge text. */
  lemma {:induction false} ContextBlocksSpec(dets: seq<ChatDetection>, kb: seq<KnowledgeEntry>,
                                             similarity: (string, string) -> real)
    requires |kb| > 0
    ensures |ContextBlocks(dets, kb, similarity)| == |dets|
    ensures forall b :: b in ContextBlocks(dets, kb, similarity) ==> exists i :: 0 <= i < |kb| && kb[i].text == b
  {
    if dets != [] {
      var d := dets[|dets| - 1];
      ContextBlocksSpec(dets[..|dets| - 1], kb, similarity);
      LookupFound(kb, ClassOf(d));
      RetrieveCount(kb, ClassOf(d), similarity, 1);
    }
  }

  /** A found key gives the text of an entry. */
  lemma {:induction false} LookupFound(kb: seq<KnowledgeEntry>, key: string)
    ensures Lookup(kb, key).Some? ==> exists i :: 0 <= i < |kb| && kb[i].text == Lookup(kb, key).value
  {
    if kb != [] && kb[0].key != key {
      LookupFound(kb[1..], key);
      if Lookup(kb, key).Some? {
        var i :| 0 <= i < |kb[1..]| && kb[1..][i].text == Lookup(kb, key).value;
        assert kb[i + 1] == kb[1..][i];
      }
    }
  }

  /** The findings part of the prompt. */
  function FindingsText(findings: seq<string>): string
  {
    if findings == [] then NO_FINDINGS else Join(findings, ", ")
  }

  /** `conversation_history`. */
  function History(req: ChatRequest): string
  {
    req.history + "\nUser: " + req.question
  }

  /** The request's detections; a detection dict without the key gives none. */
  function DetectionsOf(req: ChatRequest): seq<ChatDetection>
  {
    req.detections.GetOr([])
  }

  /** The prompt `process_chat` sends. */
  function ChatPromptOf(req: ChatRequest, kb: seq<KnowledgeEntry>, similarity: (string, string) -> real,
                        percent: real -> string): Prompt
  {
    var dets := DetectionsOf(req);
    ChatPrompt(FindingsText(Findings(dets, percent)), Join(ContextBlocks(dets, kb, similarity), "\n"), History(req))
  }

  /** The findings text names the first detection first and ends with the last one's closing
      parenthesis, or says there are none; the history ends with the question. */
  lemma PromptShape(req: ChatRequest, kb: seq<KnowledgeEntry>, similarity: (string, string) -> real,
                    percent: real -> string)
    ensures var p := ChatPromptOf(req, kb, similarity, percent);
      && (DetectionsOf(req) == [] <==> p.findings == NO_FINDINGS)
      && (DetectionsOf(req) != [] ==>
            var first := FindingLine(DetectionsOf(req)[0], percent);
            && |first| <= |p.findings|
            && p.findings[..|first|] == first
            && p.findings[|p.findings| - 1] == ')')
      && p.history[..|req.history|] == req.history
      && p.history[|p.history| - |req.question|..] == req.question
  {
    var dets := DetectionsOf(req);
    var fs := Findings(dets, percent);
    FindingsSpec(dets, percent);
    var p := ChatPromptOf(req, kb, similarity, percent);
    if dets != [] {
      JoinStartsWithFirst(fs, ", ");
      JoinEndsWithLast(fs, ", ");
      var last := FindingLine(dets[|dets| - 1], percent);
      assert fs[|fs| - 1] == last;
      assert p.findings[|p.findings| - |last|..][|last| - 1] == ')';
      assert NO_FINDINGS[|NO_FINDINGS| - 1] == '.';
    }
  }

  /** `audio_url`: the output path of the voice file, or None when there is none (no file, or
      an empty name, which is false in Python). */
  function AudioUrl(file: Option<string>): Option<string>
  {
    if file.Some? && file.value != "" then Some(AUDIO_PREFIX + file.value) else None
  }

  /** A file gives a url exactly when it has a name, and the name follows the prefix. */
  lemma AudioUrlSpec(file: Option<string>)
    ensures AudioUrl(file).None? <==> file == None || file == Some("")
    ensures AudioUrl(file).Some? ==>
      && AudioUrl(file).value[..|AUDIO_PREFIX|] == AUDIO_PREFIX
      && AudioUrl(file).value[|AUDIO_PREFIX|..] == file.value
  {
  }

  /** The loop of lines 194-205 and the response shaping of lines 207-249. Every model call
      and every speech call is recorded in `calls`, in order. */
  method ProcessChat(req: ChatRequest, kb: seq<KnowledgeEntry>, generate: Prompt -> Option<string>,
                     similarity: (string, string) -> real, speak: string -> Option<string>,
                     percent: real -> string)
    returns (resp: ChatResponse, calls: seq<Call>)
    ensures var prompt := ChatPromptOf(req, kb, similarity, percent);
      var answer := AskLlama(generate, prompt);
      && resp.answer == answer
      && (Contains(answer, CONNECTION_FAILURE) ==> resp.audioUrl == None && calls == [Generate(prompt)])
      && (!Contains(answer, CONNECTION_FAILURE) ==>
            var summary := AskLlama(generate, SummaryPrompt(answer));
            && calls == [Generate(prompt), Generate(SummaryPrompt(answer)), Speak(summary)]
            && resp.audioUrl == AudioUrl(speak(summary)))
  {
    var findings: seq<string> := [];
    var contextBlocks: seq<string> := [];
    var dets := DetectionsOf(req);
    var i := 0;
    while i < |dets|
      invariant 0 <= i <= |dets|
      invariant findings == Findings(dets[..i], percent)
      invariant contextBlocks == ContextBlocks(dets[..i], kb, similarity)
    {
      var det := dets[i];
      assert dets[..i + 1][..i] == dets[..i] && dets[..i + 1][i] == det;
      var finding := ClassOf(det);
      findings := findings + [FindingLine(det, percent)];
      var known := Lookup(kb, finding);
      if known.Some? {
        contextBlocks := contextBlocks + [known.value];
      } else {
        var fallback := RetrieveFallback(kb, finding, similarity, 1);
        contextBlocks := contextBlocks + fallback;
      }
      i := i + 1;
    }
    assert dets[..i] == dets;
    var context := Join(contextBlocks, "\n");
    var history := History(req);
    var prompt := ChatPrompt(FindingsText(findings), context, history);
    var answer := AskLlama(generate, prompt);
    calls := [Generate(prompt)];
    if Contains(answer, CONNECTION_FAILURE) {
      resp := ChatResponse(answer, None);
      return;
    }
    var summary := AskLlama(generate, SummaryPrompt(answer));
    calls := calls + [Generate(SummaryPrompt(answer))];
    var audioFile := speak(summary);
    calls := calls + [Speak(summary)];
    resp := ChatResponse(answer, AudioUrl(audioFile));
  }

  /** A failed model request ends the chat with the failure reply and no audio, and nothing
      else is called. */
  lemma FailureShortCircuits(req: ChatRequest, kb: seq<KnowledgeEntry>, generate: Prompt -> Option<string>,
                             similarity: (string, string) -> real, percent: real -> string)
    requires generate(ChatPromptOf(req, kb, similarity, percent)).None?
    ensures Contains(AskLlama(generate, ChatPromptOf(req, kb, similarity, percent)), CONNECTION_FAILURE)
    ensures AskLlama(generate, ChatPromptOf(req, kb, similarity, percent)) == FAILURE_REPLY
  {
    AskLlamaFailure(generate, ChatPromptOf(req, kb, similarity, percent));
  }
}
