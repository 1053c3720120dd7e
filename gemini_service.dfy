/** The prompt builder and the guards of convertRepoToMVP
    (services/geminiService.ts). The hosted-model call is the parameter
    `generate`; JSON parsing of its text is left to the caller. */
module GeminiService {
  import opened Types

  /** Characters of each file that go into the prompt. */
  const PreviewLimit: nat := 1000
  const FileHeader := "FILE: "
  const PreviewHeader := "\nCONTENT PREVIEW:\n"
  const BlockSeparator := "\n\n---\n\n"

  const ModelId := "gemini-1.5-pro"
  const ResponseMimeType := "application/json"
  const MissingKeyMessage := "GEMINI_API_KEY environment variable is not set"
  const EmptyResponseMessage := "AI failed to generate content"

  /** The fixed instructions before the file summary. */
  const PromptHead :=
    "\n    You are a senior product engineer and venture architect. Analyze this repository (it might be incomplete) and conceptualize a polished MVP version.\n"
    + "    \n"
    + "    TASK:\n"
    + "    1. Identify the core value proposition.\n"
    + "    2. Extract the actual tech stack used and suggest missing pieces. For each technology, provide its name and a brief (1 sentence) description of its specific role in this product's architecture.\n"
    + "    3. Generate a structured roadmap for launch.\n"
    + "    4. Propose a specific MVP version number based on completeness.\n"
    + "    5. Estimate a potential market valuation (Seed/Pre-seed stage) based on the technical complexity and market potential.\n"
    + "       - Provide valuation in USD.\n"
    + "       - Provide valuation in Ringgit Malaysia (MYR) using an approximate exchange rate of 1 USD = 4.70 MYR.\n"
    + "    \n"
    + "    INPUT REPO FILES:\n"
    + "    "

  /** The fixed instructions after the file summary. */
  const PromptTail :=
    "\n    \n"
    + "    Return the response strictly in the specified JSON format. Ensure valuations are reasonable numbers (not strings).\n"
    + "  "

  /** The `required` list of the declared response schema, typed out as the
      source writes it. */
  const ResponseSchemaRequired: seq<string> :=
    ["projectName", "tagline", "overview", "techStack", "features", "roadmap",
     "suggestedMvpVersion", "valuationUSD", "valuationMYR"]

  /** The two environment variables the key may come from. */
  datatype Env = Env(geminiApiKey: Option<string>, apiKey: Option<string>)

  /** The request handed to the hosted model. */
  datatype Request = Request(
    apiKey: string,
    model: string,
    contents: string,
    responseMimeType: string,
    requiredFields: seq<string>)

  /** How the model call settles: it rejects with an error message
      (network, quota, unknown model), or it resolves to a response whose
      `text` may be absent. */
  datatype Reply = Rejected(message: string) | Answered(text: Option<string>)

  /** How one conversion ends: it throws before any request, the call's
      rejection propagates, it throws on empty text, or it resolves to
      JSON.parse of the returned text. */
  datatype Conversion =
    | MissingApiKey
    | RequestFailed(request: Request, message: string)
    | EmptyResponse(request: Request)
    | Parsed(request: Request, text: string)

  function Min(a: int, b: int): int { if a <= b then a else b }

  /** JavaScript truthiness of an optional string: present and non-empty. */
  predicate Truthy(v: Option<string>) { v.Some? && v.value != "" }

  /** `GEMINI_API_KEY || API_KEY`, kept only when it is truthy. */
  function ResolveApiKey(env: Env): (key: Option<string>)
    ensures key.Some? ==> key.value != ""
    ensures key.None? <==> !Truthy(env.geminiApiKey) && !Truthy(env.apiKey)
    ensures Truthy(env.geminiApiKey) ==> key == env.geminiApiKey
    ensures !Truthy(env.geminiApiKey) && Truthy(env.apiKey) ==> key == env.apiKey
  {
    if Truthy(env.geminiApiKey) then env.geminiApiKey
    else if Truthy(env.apiKey) then env.apiKey
    else None
  }

  /** `content.substring(0, 1000)`. */
  function Preview(content: string): (p: string)
    ensures |p| == Min(PreviewLimit, |content|)
    ensures p <= content
    ensures |content| <= PreviewLimit ==> p == content
  {
    content[..Min(PreviewLimit, |content|)]
  }

  /** The text one file contributes to the summary. */
  function Block(f: FileData): string
  {
    FileHeader + f.name + PreviewHeader + Preview(f.content)
  }

  /** A block names its file after a fixed header and then gives the
      preview, after a fixed marker, as its last characters. */
  lemma BlockLayout(f: FileData)
    ensures |Block(f)| == |FileHeader| + |f.name| + |PreviewHeader| + Min(PreviewLimit, |f.content|)
    ensures Block(f)[..|FileHeader|] == FileHeader
    ensures Block(f)[|FileHeader|..|FileHeader| + |f.name|] == f.name
    ensures Block(f)[|FileHeader| + |f.name|..|FileHeader| + |f.name| + |PreviewHeader|] == PreviewHeader
    ensures Block(f)[|FileHeader| + |f.name| + |PreviewHeader|..] <= f.content
  {
    var n := |FileHeader| + |f.name|;
    assert Block(f)[n..n + |PreviewHeader|] == PreviewHeader;
    assert Block(f)[n + |PreviewHeader|..] == Preview(f.content);
  }

  /** `Array.prototype.join`: the parts with `sep` between neighbours. */
  function Join(parts: seq<string>, sep: string): string
  {
    if |parts| == 0 then ""
    else if |parts| == 1 then parts[0]
    else parts[0] + sep + Join(parts[1..], sep)
  }

  /** Where parts[i] starts in Join(parts, sep). */
  function Offset(parts: seq<string>, sep: string, i: nat): nat
    requires i <= |parts|
  {
    if i == 0 then 0 else |parts[0]| + |sep| + Offset(parts[1..], sep, i - 1)
  }

  /** The sum of the lengths of the parts. */
  function TotalLength(parts: seq<string>): nat
  {
    if parts == [] then 0 else |parts[0]| + TotalLength(parts[1..])
  }

  /** Each part starts one separator after the end of the previous one. */
  lemma {:induction false} OffsetStep(parts: seq<string>, sep: string, i: nat)
    requires i + 1 <= |parts|
    ensures Offset(parts, sep, i + 1) == Offset(parts, sep, i) + |parts[i]| + |sep|
  {
    if i > 0 {
      OffsetStep(parts[1..], sep, i - 1);
    }
  }

  /** From the start of parts[i] on, the joined text is the join of parts[i..]. */
  lemma {:induction false} JoinSuffix(parts: seq<string>, sep: string, i: nat)
    requires i < |parts|
    ensures Offset(parts, sep, i) <= |Join(parts, sep)|
    ensures Join(parts, sep)[Offset(parts, sep, i)..] == Join(parts[i..], sep)
  {
    if i == 0 {
      assert parts[0..] == parts;
    } else {
      var tail := Join(parts[1..], sep);
      var k := |parts[0]| + |sep|;
      assert Join(parts, sep) == parts[0] + sep + tail;
      JoinSuffix(parts[1..], sep, i - 1);
      assert parts[1..][i - 1..] == parts[i..];
      assert Join(parts, sep)[k..] == tail;
    }
  }

  /** Joined text is the parts, in order, with exactly one separator between
      each pair of neighbours and nothing before the first or after the last. */
  lemma JoinLayout(parts: seq<string>, sep: string, i: nat)
    requires i < |parts|
    ensures Offset(parts, sep, i) + |parts[i]| <= |Join(parts, sep)|
    ensures Join(parts, sep)[Offset(parts, sep, i)..Offset(parts, sep, i) + |parts[i]|] == parts[i]
    ensures i + 1 < |parts| ==>
      Offset(parts, sep, i + 1) == Offset(parts, sep, i) + |parts[i]| + |sep| <= |Join(parts, sep)| &&
      Join(parts, sep)[Offset(parts, sep, i) + |parts[i]|..Offset(parts, sep, i + 1)] == sep
    ensures i + 1 == |parts| ==> Offset(parts, sep, i) + |parts[i]| == |Join(parts, sep)|
  {
    var r := Join(parts, sep);
    var o := Offset(parts, sep, i);
    JoinSuffix(parts, sep, i);
    var rest := Join(parts[i..], sep);
    assert r[o..] == rest;
    if i + 1 < |parts| {
      OffsetStep(parts, sep, i);
      assert parts[i..][1..] == parts[i + 1..];
      assert rest == parts[i] + sep + Join(parts[i + 1..], sep);
      assert r[o..o + |parts[i]|] == rest[..|parts[i]|];
      assert r[o + |parts[i]|..o + |parts[i]| + |sep|] == rest[|parts[i]|..|parts[i]| + |sep|];
    } else {
      assert rest == parts[i];
    }
  }

  /** A join of n parts has the parts' lengths plus n - 1 separators. */
  lemma {:induction false} JoinLength(parts: seq<string>, sep: string)
    requires |parts| >= 1
    ensures |Join(parts, sep)| == TotalLength(parts) + (|parts| - 1) * |sep|
  {
    if |parts| > 1 {
      JoinLength(parts[1..], sep);
    }
  }

  /** The blocks of the files, in input order. */
  function Blocks(files: seq<FileData>): (bs: seq<string>)
    ensures |bs| == |files|
    ensures forall i :: 0 <= i < |files| ==> bs[i] == Block(files[i])
  {
    if files == [] then [] else [Block(files[0])] + Blocks(files[1..])
  }

  /** `fileSummary`: the blocks joined by the separator. */
  function FileSummary(files: seq<FileData>): (s: string)
    ensures |files| == 0 ==> s == ""
    ensures |files| == 1 ==> s == Block(files[0])
  {
    Join(Blocks(files), BlockSeparator)
  }

  /** Each file's block sits in the summary in input order, one separator
      between neighbours, and the summary ends with the last block. */
  lemma SummaryLayout(files: seq<FileData>, i: nat)
    requires i < |files|
    ensures Offset(Blocks(files), BlockSeparator, i) + |Block(files[i])| <= |FileSummary(files)|
    ensures FileSummary(files)[Offset(Blocks(files), BlockSeparator, i)..
                               Offset(Blocks(files), BlockSeparator, i) + |Block(files[i])|] == Block(files[i])
    ensures i + 1 < |files| ==>
      Offset(Blocks(files), BlockSeparator, i + 1) ==
        Offset(Blocks(files), BlockSeparator, i) + |Block(files[i])| + |BlockSeparator| <= |FileSummary(files)| &&
      FileSummary(files)[Offset(Blocks(files), BlockSeparator, i) + |Block(files[i])|..
                         Offset(Blocks(files), BlockSeparator, i + 1)] == BlockSeparator
    ensures i + 1 == |files| ==>
      Offset(Blocks(files), BlockSeparator, i) + |Block(files[i])| == |FileSummary(files)|
  {
    var bs := Blocks(files);
    assert FileSummary(files) == Join(bs, BlockSeparator);
    assert bs[i] == Block(files[i]);
    JoinLayout(bs, BlockSeparator, i);
  }

  /** The prompt template with the summary interpolated. */
  function Prompt(summary: string): string
  {
    PromptHead + summary + PromptTail
  }

  /** The prompt is the fixed head, the summary verbatim, the fixed tail:
      nothing around the summary depends on the files. */
  lemma PromptLayout(summary: string)
    ensures |Prompt(summary)| == |PromptHead| + |summary| + |PromptTail|
    ensures Prompt(summary)[..|PromptHead|] == PromptHead
    ensures Prompt(summary)[|PromptHead|..|PromptHead| + |summary|] == summary
    ensures Prompt(summary)[|PromptHead| + |summary|..] == PromptTail
  {
  }

  /** Recovers the summary from a prompt, if it has the template's shape. */
  function SummaryOf(prompt: string): Option<string>
  {
    if |prompt| >= |PromptHead| + |PromptTail|
       && prompt[..|PromptHead|] == PromptHead
       && prompt[|prompt| - |PromptTail|..] == PromptTail
    then Some(prompt[|PromptHead|..|prompt| - |PromptTail|])
    else None
  }

  /** The summary is embedded unchanged: it can be read back out. */
  lemma PromptRoundTrip(summary: string)
    ensures SummaryOf(Prompt(summary)) == Some(summary)
  {
    var p := Prompt(summary);
    PromptLayout(summary);
    assert p[|p| - |PromptTail|..] == PromptTail;
  }

  /** The request convertRepoToMVP sends with a given key. */
  function RequestFor(key: string, files: seq<FileData>): Request
  {
    Request(key, ModelId, Prompt(FileSummary(files)), ResponseMimeType, ResponseSchemaRequired)
  }

  /** convertRepoToMVP with the model call as the parameter `generate`. */
  function ConvertRepoToMVP(env: Env, files: seq<FileData>, generate: Request -> Reply): (c: Conversion)
    ensures c.MissingApiKey? <==> ResolveApiKey(env).None?
    ensures !c.MissingApiKey? ==> c.request == RequestFor(ResolveApiKey(env).value, files)
    ensures c.RequestFailed? <==> ResolveApiKey(env).Some? && generate(c.request).Rejected?
    ensures c.RequestFailed? ==> c.message == generate(c.request).message
    ensures c.EmptyResponse? <==>
      ResolveApiKey(env).Some? && generate(c.request).Answered? && !Truthy(generate(c.request).text)
    ensures c.Parsed? ==> c.text != "" && generate(c.request) == Answered(Some(c.text))
  {
    match ResolveApiKey(env)
    case None => MissingApiKey
    case Some(key) =>
      var request := RequestFor(key, files);
      match generate(request)
      case Rejected(message) => RequestFailed(request, message)
      case Answered(text) =>
        if !Truthy(text) then EmptyResponse(request) else Parsed(request, text.value)
  }

  /** The message of the error a conversion throws, if it throws. */
  function ErrorMessage(c: Conversion): Option<string>
  {
    match c
    case MissingApiKey => Some(MissingKeyMessage)
    case RequestFailed(_, message) => Some(message)
    case EmptyResponse(_) => Some(EmptyResponseMessage)
    case Parsed(_, _) => None
  }

  /** A missing key ends the conversion before the model is consulted: the
      outcome depends neither on the model nor on the files. */
  lemma KeyCheckPrecedesRequest(env: Env, files1: seq<FileData>, files2: seq<FileData>,
                                generate1: Request -> Reply, generate2: Request -> Reply)
    requires !Truthy(env.geminiApiKey) && !Truthy(env.apiKey)
    ensures ConvertRepoToMVP(env, files1, generate1) == ConvertRepoToMVP(env, files2, generate2) == MissingApiKey
    ensures ErrorMessage(MissingApiKey) == Some(MissingKeyMessage)
  {
  }

  /** Empty or absent text throws the empty-response error and reaches no parsing. */
  lemma EmptyTextIsRejected(env: Env, files: seq<FileData>, generate: Request -> Reply)
    requires ResolveApiKey(env).Some?
    requires generate(RequestFor(ResolveApiKey(env).value, files)) in {Answered(None), Answered(Some(""))}
    ensures ConvertRepoToMVP(env, files, generate).EmptyResponse?
    ensures ErrorMessage(ConvertRepoToMVP(env, files, generate)) == Some(EmptyResponseMessage)
  {
  }

  /** A rejected model call propagates: the conversion throws the call's own
      error, and nothing is parsed. */
  lemma RejectionPropagates(env: Env, files: seq<FileData>, generate: Request -> Reply, message: string)
    requires ResolveApiKey(env).Some?
    requires generate(RequestFor(ResolveApiKey(env).value, files)) == Rejected(message)
    ensures ConvertRepoToMVP(env, files, generate) == RequestFailed(RequestFor(ResolveApiKey(env).value, files), message)
    ensures ErrorMessage(ConvertRepoToMVP(env, files, generate)) == Some(message)
  {
  }

  /** The declared schema requires exactly the nine MVPData fields, each once. */
  lemma SchemaRequiresMVPFields()
    ensures ResponseSchemaRequired == MVPFieldNames
    ensures |ResponseSchemaRequired| == 9
    ensures forall i, j :: 0 <= i < j < |ResponseSchemaRequired| ==> ResponseSchemaRequired[i] != ResponseSchemaRequired[j]
  {
  }
}
