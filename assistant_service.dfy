/** The retrieval-augmented assistant (assistant_service.py): the system
    prompt per mode, the rendering of retrieved chunks as context and as a
    de-duplicated source list, and the choice of user prompt. The language
    model, the embedding search and the debug printing are outside the
    model: the retrieved documents are a parameter. */
module AssistantService {
  import opened Wrappers
  import opened Text
  import opened Sorting

  /** A retrieved chunk and the metadata the ingestion scripts attach. */
  datatype Doc = Doc(content: string, sourceFile: Option<string>, chunkId: Option<int>)

  // Each prompt is written as a short head and the rest, so that the
  // characters that tell the prompts apart sit in a short literal.
  const SpecPrompt: string :=
    "You are an expert in def"
    + "ining specifications for robotics and automation projects based on NVIDIA Isaac Sim and Isaac Lab. Based on the user's requirements, you logically structure and explain the components of a robot learning environment, such as Action, Observation, Reward, and Termination."
  const ParamsPrompt: string :=
    "You are an expert in des"
    + "igning robot learning parameters in NVIDIA Isaac Sim and Isaac Lab environments. Your goal is to propose realistic parameter ranges that prioritize reinforcement learning stability and reliable convergence."
  const TemplatePrompt: string :=
    "You are an assistant spe"
    + "cialized in creating documentation and configuration templates for robot learning and automation projects. You generate structured outputs that users can directly copy and use."
  const GenericPrompt: string :=
    "You are a helpful assist"
    + "ant specialized in NVIDIA Isaac Sim / Isaac Lab robotics learning workflows."

  /** `build_system_prompt(mode)`. */
  function BuildSystemPrompt(mode: string): (p: string)
    ensures mode == "spec" ==> p == SpecPrompt
    ensures mode == "params" ==> p == ParamsPrompt
    ensures mode == "template" ==> p == TemplatePrompt
    ensures mode != "spec" && mode != "params" && mode != "template" ==> p == GenericPrompt
  {
    if mode == "spec" then SpecPrompt
    else if mode == "params" then ParamsPrompt
    else if mode == "template" then TemplatePrompt
    else GenericPrompt
  }

  /** The four prompts differ, so the prompt tells which mode was asked
      for: exactly the modes other than "spec", "params" and "template" get
      the generic prompt, and each dedicated prompt belongs to one mode. */
  lemma PromptIdentifiesMode(mode: string)
    ensures BuildSystemPrompt(mode) == GenericPrompt <==> mode !in {"spec", "params", "template"}
    ensures BuildSystemPrompt(mode) == SpecPrompt <==> mode == "spec"
    ensures BuildSystemPrompt(mode) == ParamsPrompt <==> mode == "params"
    ensures BuildSystemPrompt(mode) == TemplatePrompt <==> mode == "template"
  {
    assert SpecPrompt[23] != ParamsPrompt[23];
    assert SpecPrompt[11] != TemplatePrompt[11] && ParamsPrompt[11] != TemplatePrompt[11];
    assert SpecPrompt[9] != GenericPrompt[9] && ParamsPrompt[9] != GenericPrompt[9] && TemplatePrompt[9] != GenericPrompt[9];
  }

  function SourceName(d: Doc): string {
    d.sourceFile.GetOr("unknown")
  }

  function ChunkName(d: Doc): string {
    if d.chunkId.Some? then IntToString(d.chunkId.value) else "?"
  }

  /** `f"{source_file} | chunk {chunk_id}"`. */
  function Label(d: Doc): string {
    SourceName(d) + " | chunk " + ChunkName(d)
  }

  /** One context block: the label in brackets, a newline, the chunk. */
  function Block(d: Doc): string {
    "[" + Label(d) + "]\n" + d.content
  }

  function Blocks(docs: seq<Doc>): (r: seq<string>)
    ensures |r| == |docs| && forall k :: 0 <= k < |docs| ==> r[k] == Block(docs[k])
  {
    seq(|docs|, k requires 0 <= k < |docs| => Block(docs[k]))
  }

  lemma BlocksSnoc(docs: seq<Doc>, i: nat)
    requires i < |docs|
    ensures Blocks(docs[..i + 1]) == Blocks(docs[..i]) + [Block(docs[i])]
  {
    assert docs[..i + 1][..i] == docs[..i];
  }

  /** `docs_to_context`: the blocks, separated by blank lines. */
  method DocsToContext(docs: seq<Doc>) returns (context: string)
    ensures context == Join(Blocks(docs), "\n\n")
    ensures docs == [] <==> context == ""
  {
    var blocks: seq<string> := [];
    for i := 0 to |docs|
      invariant blocks == Blocks(docs[..i])
    {
      var src := SourceName(docs[i]);
      var chunk := ChunkName(docs[i]);
      var tag := src + " | chunk " + chunk;
      BlocksSnoc(docs, i);
      blocks := blocks + ["[" + tag + "]\n" + docs[i].content];
    }
    assert docs[..|docs|] == docs;
    context := Join(blocks, "\n\n");
    if docs != [] {
      JoinStartsWith(blocks, "\n\n");
    }
  }

  /** A non-empty join starts with its first part. */
  lemma JoinStartsWith(parts: seq<string>, sep: string)
    requires parts != []
    ensures |Join(parts, sep)| >= |parts[0]| && Join(parts, sep)[..|parts[0]|] == parts[0]
  {
  }

  function Labels(docs: seq<Doc>): (r: seq<string>)
    ensures |r| == |docs| && forall k :: 0 <= k < |docs| ==> r[k] == Label(docs[k])
  {
    seq(|docs|, k requires 0 <= k < |docs| => Label(docs[k]))
  }

  /** `out` lists each label of `labels[..n]` once, in order of first
      appearance; `firsts[p]` is where `out[p]` first appears. */
  ghost predicate FirstAppearances(labels: seq<string>, n: nat, out: seq<string>, firsts: seq<nat>) {
    n <= |labels| && Distinct(out) && |out| <= n && |firsts| == |out|
    && (forall k :: 0 <= k < n ==> labels[k] in out)
    && (forall p :: 0 <= p < |out| ==>
          firsts[p] < n && labels[firsts[p]] == out[p]
          && forall k :: 0 <= k < firsts[p] ==> labels[k] != out[p])
    && (forall p, q :: 0 <= p < q < |out| ==> firsts[p] < firsts[q])
  }

  /** One more label: a label already listed changes nothing, a new one is
      listed at the end with its own position. */
  lemma FirstAppearancesStep(labels: seq<string>, n: nat, out: seq<string>, firsts: seq<nat>)
    requires FirstAppearances(labels, n, out, firsts) && n < |labels|
    ensures labels[n] in out ==> FirstAppearances(labels, n + 1, out, firsts)
    ensures labels[n] !in out ==> FirstAppearances(labels, n + 1, out + [labels[n]], firsts + [n])
  {
    if labels[n] !in out {
      var out', firsts' := out + [labels[n]], firsts + [n];
      forall p | 0 <= p < |out'|
        ensures firsts'[p] < n + 1 && labels[firsts'[p]] == out'[p]
        ensures forall k :: 0 <= k < firsts'[p] ==> labels[k] != out'[p]
      {
        if p == |out| {
          forall k | 0 <= k < n ensures labels[k] != out'[p] {
            assert labels[k] in out;
          }
        }
      }
    }
  }

  /** Every listed label comes from some position. */
  lemma FirstAppearancesCome(labels: seq<string>, out: seq<string>, firsts: seq<nat>)
    requires FirstAppearances(labels, |labels|, out, firsts)
    ensures forall s :: s in out ==> exists k :: 0 <= k < |labels| && labels[k] == s
  {
    forall s | s in out
      ensures exists k :: 0 <= k < |labels| && labels[k] == s
    {
      var p :| 0 <= p < |out| && out[p] == s;
      assert labels[firsts[p]] == s;
    }
  }

  /** Each label of `labels` once, in order of first appearance. */
  function FirstSeen(labels: seq<string>): seq<string> {
    if labels == [] then []
    else
      var seen := FirstSeen(labels[..|labels| - 1]);
      var last := labels[|labels| - 1];
      if last in seen then seen else seen + [last]
  }

  /** `FirstSeen` lists every label once, in order of first appearance;
      `firsts` says where each listed label first appears. */
  lemma {:induction false} FirstSeenAppearances(labels: seq<string>) returns (firsts: seq<nat>)
    ensures FirstAppearances(labels, |labels|, FirstSeen(labels), firsts)
  {
    if labels == [] {
      firsts := [];
    } else {
      var n := |labels| - 1;
      var init := labels[..n];
      var firsts' := FirstSeenAppearances(init);
      assert FirstAppearances(labels, n, FirstSeen(init), firsts') by {
        forall k | 0 <= k < n ensures labels[k] == init[k] { }
      }
      FirstAppearancesStep(labels, n, FirstSeen(init), firsts');
      firsts := if labels[n] in FirstSeen(init) then firsts' else firsts' + [n];
    }
  }

  /** `docs_to_sources`: each label once, in order of first appearance.
      `firsts[i]` is the position of the document whose label is `out[i]`,
      and no earlier document has that label. */
  method DocsToSources(docs: seq<Doc>) returns (out: seq<string>, ghost firsts: seq<nat>)
    ensures Distinct(out) && |out| <= |docs|
    ensures forall k :: 0 <= k < |docs| ==> Label(docs[k]) in out
    ensures forall s :: s in out ==> exists k :: 0 <= k < |docs| && Label(docs[k]) == s
    ensures |firsts| == |out|
    ensures forall i :: 0 <= i < |out| ==>
              (firsts[i] < |docs| && Label(docs[firsts[i]]) == out[i]
               && forall k :: 0 <= k < firsts[i] ==> Label(docs[k]) != out[i])
    ensures forall i, j :: 0 <= i < j < |out| ==> firsts[i] < firsts[j]
    ensures out == FirstSeen(Labels(docs))
  {
    ghost var labels := Labels(docs);
    var seen: set<string> := {};
    out := [];
    for i := 0 to |docs|
      invariant forall s :: s in seen <==> s in out
      invariant out == FirstSeen(labels[..i])
    {
      var s := SourceName(docs[i]) + " | chunk " + ChunkName(docs[i]);
      assert s == labels[i];
      PrefixOfPrefix(labels, i + 1, i);
      if s !in seen {
        seen := seen + {s};
        out := out + [s];
      }
    }
    TakeAll(labels);
    firsts := FirstSeenAppearances(labels);
    FirstAppearancesOfDocs(docs, out, firsts);
  }

  /** The first appearances of the labels of `docs`, stated document by
      document. */
  lemma FirstAppearancesOfDocs(docs: seq<Doc>, out: seq<string>, firsts: seq<nat>)
    requires FirstAppearances(Labels(docs), |docs|, out, firsts)
    ensures Distinct(out) && |out| <= |docs|
    ensures forall k :: 0 <= k < |docs| ==> Label(docs[k]) in out
    ensures forall s :: s in out ==> exists k :: 0 <= k < |docs| && Label(docs[k]) == s
    ensures |firsts| == |out|
    ensures forall i :: 0 <= i < |out| ==>
              (firsts[i] < |docs| && Label(docs[firsts[i]]) == out[i]
               && forall k :: 0 <= k < firsts[i] ==> Label(docs[k]) != out[i])
    ensures forall i, j :: 0 <= i < j < |out| ==> firsts[i] < firsts[j]
  {
    FirstAppearancesCome(Labels(docs), out, firsts);
  }

  const ContextPromptHead: string :=
    "\nBased on"
    + " the following context, answer the question in detail.\n\nInstructions:\n- Actively use the context if it is directly relevant to the question.\n- If the context does not contain sufficient information, you may also rely on general knowledge to answer.\n- When combining context-based information with general knowledge, do not exaggerate.\n- If any part of the answer is uncertain or inferred, clearly indicate it as \"estimated\" or \"inferred\".\n\n[Context]\n"
  const NoContextPromptHead: string :=
    "\nAnswer"
    + " the following question.\n(Since there are no reference documents provided, respond based on general knowledge and reasoning. If any part of the answer is uncertain, clearly indicate it as \"estimated\".)\n\n"

  /** The user prompt: with a non-empty context, the context template;
      otherwise the general-knowledge one. `robot` is the rendered robot
      description. */
  function UserPrompt(context: string, query: string, robot: string): (p: string)
    ensures context != "" ==> |p| >= |ContextPromptHead| && p[..|ContextPromptHead|] == ContextPromptHead
    ensures context == "" ==> |p| >= |NoContextPromptHead| && p[..|NoContextPromptHead|] == NoContextPromptHead
  {
    var tail := "[User Question]\n" + query + "\n\n[Robot Info]\n" + robot + "\n";
    if context != "" then ContextPromptHead + context + "\n\n" + tail
    else NoContextPromptHead + tail
  }

  /** The user prompt tells whether context was used: no prompt built on
      context equals a prompt built without it, whatever the question and
      robot details. */
  lemma PromptRevealsContext(context: string, q1: string, r1: string, q2: string, r2: string)
    requires context != ""
    ensures UserPrompt(context, q1, r1) != UserPrompt("", q2, r2)
  {
    var p1, p2 := UserPrompt(context, q1, r1), UserPrompt("", q2, r2);
    assert p1[1] == p1[..|ContextPromptHead|][1] == ContextPromptHead[1] == 'B';
    assert p2[1] == p2[..|NoContextPromptHead|][1] == NoContextPromptHead[1] == 'A';
  }

  /** What `run_assistant_query` hands the model and returns besides the
      answer. */
  datatype Query = Query(systemPrompt: string, userPrompt: string, sources: seq<string>)

  /** `run_assistant_query`, up to the model call. `apiKey` is the
      configured key; `retrieved` is the top-k search result, or `None`
      when no vector store is loaded. */
  method RunAssistantQuery(mode: string, query: string, robot: string, apiKey: Option<string>, retrieved: Option<seq<Doc>>)
    returns (r: Result<Query, string>)
    ensures apiKey.None? || apiKey == Some("") <==> r.Failure?
    ensures r.Success? ==> r.value.systemPrompt == BuildSystemPrompt(mode)
    ensures r.Success? && (retrieved.None? || retrieved == Some([])) ==>
              r.value.sources == [] && r.value.userPrompt == UserPrompt("", query, robot)
    ensures r.Success? && retrieved.Some? && retrieved.value != [] ==>
              r.value.userPrompt == UserPrompt(Join(Blocks(retrieved.value), "\n\n"), query, robot)
              && |r.value.sources| >= 1 && Distinct(r.value.sources)
              && r.value.sources == FirstSeen(Labels(retrieved.value))
  {
    if apiKey.None? || apiKey.value == "" {
      return Failure("OPENAI_API_KEY is not set");
    }
    var systemPrompt := BuildSystemPrompt(mode);
    var context := "";
    var sources: seq<string> := [];
    if retrieved.Some? {
      var docs := retrieved.value;
      if docs != [] {
        context := DocsToContext(docs);
        ghost var firsts;
        sources, firsts := DocsToSources(docs);
        assert Label(docs[0]) in sources;
      }
    }
    var userPrompt := UserPrompt(context, query, robot);
    r := Success(Query(systemPrompt, userPrompt, sources));
  }
}
