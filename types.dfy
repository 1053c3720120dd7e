/** Records shared by the service, the command-line worker and the web app
    (types.ts). They carry no behaviour of their own. */
module Types {

  datatype Option<+T> = None | Some(value: T)

  /** One collected or uploaded file: its display name, its whole text and a
      type tag (an extension such as ".ts" from the worker, a MIME type from
      the browser). */
  datatype FileData = FileData(name: string, content: string, fileType: string)

  /** One technology of the generated stack and its role in the product. */
  datatype TechItem = TechItem(name: string, role: string)

  /** The structured product description the hosted model returns. Valuations
      are numbers the model writes; nothing here computes them. */
  datatype MVPData = MVPData(
    projectName: string,
    tagline: string,
    overview: string,
    techStack: seq<TechItem>,
    features: seq<string>,
    roadmap: seq<string>,
    suggestedMvpVersion: string,
    valuationUSD: real,
    valuationMYR: real)

  /** One backer of the project, newest first in the app's list. */
  datatype Funder = Funder(name: string, amount: int, date: string)

  /** The field names of MVPData, in declaration order: this mirrors the
      interface in types.ts field by field, one entry per field above. */
  const MVPFieldNames: seq<string> :=
    ["projectName", "tagline", "overview", "techStack", "features", "roadmap",
     "suggestedMvpVersion", "valuationUSD", "valuationMYR"]

  /** Regrouping a concatenation; stated once so that long proofs about
      appended sequences need not rediscover it. */
  lemma AppendAssociative<T>(a: seq<T>, b: seq<T>, c: seq<T>)
    ensures a + b + c == a + (b + c)
  {
  }
}
