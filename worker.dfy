/** The command-line worker (scripts/worker.ts): a depth-first walk that
    collects allow-listed files below a root directory, then the checks that
    decide the exit status. The filesystem is the tree below; the name a
    record gets (its path relative to the working directory) is the opaque
    function `nameOf` of the names on the way from the root to the file. */
module Worker {
  import opened Types
  import GeminiService

  /** A directory entry. `readable` says whether reading the file as UTF-8
      text succeeds; `listable` whether listing the directory succeeds. */
  datatype Node =
    | File(name: string, text: string, readable: bool)
    | Dir(name: string, listable: bool, entries: seq<Node>)

  /** A file the walk reaches: the directories from the root to it, its name,
      its text and whether it can be read. */
  datatype Located = Located(dirs: seq<string>, name: string, text: string, readable: bool)

  /** The extensions `collectFiles` accepts when no list is passed. */
  const DefaultExts: seq<string> := [".ts", ".tsx", ".js", ".jsx", ".json", ".md", ".html", ".css", ".txt"]

  /** Directory names the walk never enters. */
  predicate Pruned(name: string)
  {
    name == "node_modules" || name == ".git"
  }

  /** Index of the last '.' of `s`, or -1. */
  function LastDot(s: string): (k: int)
    ensures -1 <= k < |s|
    ensures k >= 0 ==> s[k] == '.'
    ensures forall j :: k < j < |s| ==> s[j] != '.'
  {
    if s == [] then -1
    else if s[|s| - 1] == '.' then |s| - 1
    else LastDot(s[..|s| - 1])
  }

  /** `path.extname` of a base name: from the last dot on, except that a dot
      at the very start (".gitignore") or the name ".." gives "". */
  function Ext(name: string): (e: string)
    ensures e != "" ==> e[0] == '.' && |e| < |name| && e == name[|name| - |e|..]
    ensures forall j :: 0 < j < |e| ==> e[j] != '.'
    ensures e == "" <==> name == ".." || forall j :: 0 < j < |name| ==> name[j] != '.'
  {
    var k := LastDot(name);
    if k <= 0 || name == ".." then "" else name[k..]
  }

  /** `path.extname(e.name) || 'file'`. */
  function TypeTag(ext: string): string
  {
    if ext == "" then "file" else ext
  }

  /** The record pushed for a file that was read. */
  function ToRecord(nameOf: seq<string> -> string, l: Located): (r: FileData)
    ensures r.content == l.text
  {
    FileData(nameOf(l.dirs + [l.name]), l.text, TypeTag(Ext(l.name)))
  }

  /** The records of located files, in order. */
  function Records(nameOf: seq<string> -> string, ls: seq<Located>): (rs: seq<FileData>)
    ensures |rs| == |ls|
  {
    if ls == [] then [] else Records(nameOf, ls[..|ls| - 1]) + [ToRecord(nameOf, ls[|ls| - 1])]
  }

  lemma {:induction false} RecordsAt(nameOf: seq<string> -> string, ls: seq<Located>, i: nat)
    requires i < |ls|
    ensures Records(nameOf, ls)[i] == ToRecord(nameOf, ls[i])
  {
    if i < |ls| - 1 {
      RecordsAt(nameOf, ls[..|ls| - 1], i);
    }
  }

  lemma {:induction false} RecordsConcat(nameOf: seq<string> -> string, a: seq<Located>, b: seq<Located>)
    ensures Records(nameOf, a + b) == Records(nameOf, a) + Records(nameOf, b)
  {
    if b == [] {
      assert a + b == a;
    } else {
      var b' := b[..|b| - 1];
      assert (a + b)[..|a + b| - 1] == a + b';
      assert (a + b)[|a + b| - 1] == b[|b| - 1];
      RecordsConcat(nameOf, a, b');
    }
  }

  // ---------------------------------------------------------------------
  // What `walk` produces, as functions over the tree.

  /** `walk(p)` on the node at `path`: None when it throws (listing a file,
      or a directory that cannot be listed), else the files it records, in
      the order it pushes them. */
  function Visit(exts: seq<string>, path: seq<string>, n: Node): Option<seq<Located>>
    decreases n, 0
  {
    match n
    case File(_, _, _) => None
    case Dir(_, listable, entries) => if listable then VisitEntries(exts, path, entries) else None
  }

  /** One pass of `walk`'s loop body, for the entry `e` of the directory at `path`. */
  function VisitEntry(exts: seq<string>, path: seq<string>, e: Node): Option<seq<Located>>
    decreases e, 1
  {
    match e
    case File(name, text, readable) =>
      Some(if Ext(name) in exts && readable then [Located(path, name, text, true)] else [])
    case Dir(name, _, _) =>
      if Pruned(name) then Some([]) else Visit(exts, path + [name], e)
  }

  /** `walk`'s loop over a listing: the passes in order, stopping at the
      first that throws. */
  function VisitEntries(exts: seq<string>, path: seq<string>, entries: seq<Node>): Option<seq<Located>>
    decreases entries, 2
  {
    if entries == [] then Some([])
    else
      match VisitEntries(exts, path, entries[..|entries| - 1])
      case None => None
      case Some(before) =>
        match VisitEntry(exts, path, entries[|entries| - 1])
        case None => None
        case Some(here) => Some(before + here)
  }

  /** One more pass of the loop. */
  lemma VisitEntriesStep(exts: seq<string>, path: seq<string>, entries: seq<Node>, i: nat)
    requires i < |entries|
    ensures VisitEntries(exts, path, entries[..i + 1]) ==
      match VisitEntries(exts, path, entries[..i])
      case None => None
      case Some(before) =>
        match VisitEntry(exts, path, entries[i])
        case None => None
        case Some(here) => Some(before + here)
  {
    assert entries[..i + 1][..i] == entries[..i];
    assert entries[..i + 1][i] == entries[i];
  }

  /** Once an entry makes the loop throw, the whole listing throws. */
  lemma {:induction false} VisitEntriesFailurePersists(exts: seq<string>, path: seq<string>, entries: seq<Node>, k: nat)
    requires k <= |entries|
    requires VisitEntries(exts, path, entries[..k]).None?
    ensures VisitEntries(exts, path, entries).None?
    decreases |entries| - k
  {
    if k < |entries| {
      assert entries[..k + 1][..k] == entries[..k];
      VisitEntriesFailurePersists(exts, path, entries, k + 1);
    } else {
      assert entries[..k] == entries;
    }
  }

  /** The allow-listed files outside pruned directories below `n`, in
      depth-first order, readable or not. */
  function Eligible(exts: seq<string>, path: seq<string>, n: Node): seq<Located>
    decreases n, 0
  {
    match n
    case File(_, _, _) => []
    case Dir(_, _, entries) => EligibleEntries(exts, path, entries)
  }

  function EligibleEntry(exts: seq<string>, path: seq<string>, e: Node): seq<Located>
    decreases e, 1
  {
    match e
    case File(name, text, readable) =>
      if Ext(name) in exts then [Located(path, name, text, readable)] else []
    case Dir(name, _, _) =>
      if Pruned(name) then [] else Eligible(exts, path + [name], e)
  }

  function EligibleEntries(exts: seq<string>, path: seq<string>, entries: seq<Node>): seq<Located>
    decreases entries, 2
  {
    if entries == [] then []
    else EligibleEntries(exts, path, entries[..|entries| - 1]) + EligibleEntry(exts, path, entries[|entries| - 1])
  }

  /** Every directory the walk opens can be listed: `n` itself and, below
      it, every directory that is not pruned. */
  predicate Listable(n: Node)
    decreases n, 0
  {
    match n
    case File(_, _, _) => false
    case Dir(_, listable, entries) => listable && ListableEntries(entries)
  }

  predicate ListableEntry(e: Node)
    decreases e, 1
  {
    e.File? || Pruned(e.name) || Listable(e)
  }

  predicate ListableEntries(entries: seq<Node>)
    decreases entries, 2
  {
    entries == [] ||
    (ListableEntries(entries[..|entries| - 1]) && ListableEntry(entries[|entries| - 1]))
  }

  /** The readable ones among `ls`, in order. */
  function ReadableOnly(ls: seq<Located>): (rs: seq<Located>)
    ensures |rs| <= |ls|
    ensures forall l :: l in rs ==> l in ls && l.readable
    ensures forall l :: l in ls && l.readable ==> l in rs
  {
    if ls == [] then []
    else ReadableOnly(ls[..|ls| - 1]) + if ls[|ls| - 1].readable then [ls[|ls| - 1]] else []
  }

  lemma {:induction false} ReadableOnlyConcat(a: seq<Located>, b: seq<Located>)
    ensures ReadableOnly(a + b) == ReadableOnly(a) + ReadableOnly(b)
  {
    if b != [] {
      var b', x := b[..|b| - 1], b[|b| - 1];
      assert (a + b)[..|a + b| - 1] == a + b';
      assert (a + b)[|a + b| - 1] == x;
      ReadableOnlyConcat(a, b');
      var tail := if x.readable then [x] else [];
      calc {
        ReadableOnly(a + b);
        ReadableOnly(a + b') + tail;
        ReadableOnly(a) + ReadableOnly(b') + tail;
        ReadableOnly(a) + ReadableOnly(b);
      }
    } else {
      assert a + b == a;
    }
  }

  /** Nothing is dropped exactly when everything is readable. */
  lemma {:induction false} ReadableOnlyAll(ls: seq<Located>)
    ensures |ReadableOnly(ls)| == |ls| <==> forall l :: l in ls ==> l.readable
  {
    if ls != [] {
      var init := ls[..|ls| - 1];
      ReadableOnlyAll(init);
      if !ls[|ls| - 1].readable {
        assert |ReadableOnly(ls)| < |ls|;
      } else {
        assert forall l :: l in ls ==> l in init || l == ls[|ls| - 1];
      }
    }
  }

  /** The walk succeeds exactly when every directory it opens can be listed,
      and then records the readable eligible files, in depth-first order. */
  lemma {:induction false} VisitIsReadableEligible(exts: seq<string>, path: seq<string>, n: Node)
    decreases n, 0
    ensures Visit(exts, path, n) == if Listable(n) then Some(ReadableOnly(Eligible(exts, path, n))) else None
  {
    match n
    case File(_, _, _) =>
    case Dir(_, listable, entries) =>
      VisitEntriesIsReadableEligible(exts, path, entries);
  }

  lemma {:induction false} VisitEntryIsReadableEligible(exts: seq<string>, path: seq<string>, e: Node)
    decreases e, 1
    ensures VisitEntry(exts, path, e) ==
      if ListableEntry(e) then Some(ReadableOnly(EligibleEntry(exts, path, e))) else None
  {
    match e
    case File(name, text, readable) =>
      var here := if Ext(name) in exts then [Located(path, name, text, readable)] else [];
      assert ReadableOnly(here) == if Ext(name) in exts && readable then [Located(path, name, text, true)] else [];
    case Dir(name, _, _) =>
      if !Pruned(name) {
        VisitIsReadableEligible(exts, path + [name], e);
      }
  }

  lemma {:induction false} VisitEntriesIsReadableEligible(exts: seq<string>, path: seq<string>, entries: seq<Node>)
    decreases entries, 2
    ensures VisitEntries(exts, path, entries) ==
      if ListableEntries(entries) then Some(ReadableOnly(EligibleEntries(exts, path, entries))) else None
  {
    if entries != [] {
      var init, e := entries[..|entries| - 1], entries[|entries| - 1];
      VisitEntriesIsReadableEligible(exts, path, init);
      VisitEntryIsReadableEligible(exts, path, e);
      ReadableOnlyConcat(EligibleEntries(exts, path, init), EligibleEntry(exts, path, e));
    }
  }

  // ---------------------------------------------------------------------
  // Properties of the eligible files.

  /** A file reached from `path`: allow-listed, below `path`, and with no
      pruned directory between `path` and it. */
  ghost predicate Proper(exts: seq<string>, path: seq<string>, l: Located)
  {
    Ext(l.name) in exts &&
    path <= l.dirs &&
    forall k :: |path| <= k < |l.dirs| ==> !Pruned(l.dirs[k])
  }

  lemma {:induction false} EligibleIsProper(exts: seq<string>, path: seq<string>, n: Node)
    decreases n
    ensures forall l :: l in Eligible(exts, path, n) ==> Proper(exts, path, l)
  {
    match n
    case File(_, _, _) =>
    case Dir(_, _, entries) =>
      EligibleEntriesIsProper(exts, path, entries);
  }

  lemma {:induction false} EligibleEntriesIsProper(exts: seq<string>, path: seq<string>, entries: seq<Node>)
    decreases entries
    ensures forall l :: l in EligibleEntries(exts, path, entries) ==> Proper(exts, path, l)
  {
    if entries != [] {
      var init := entries[..|entries| - 1];
      var e := entries[|entries| - 1];
      EligibleEntriesIsProper(exts, path, init);
      match e
      case File(_, _, _) =>
      case Dir(name, _, _) =>
        if !Pruned(name) {
          EligibleIsProper(exts, path + [name], e);
          forall l | l in Eligible(exts, path + [name], e)
            ensures Proper(exts, path, l)
          {
            assert l.dirs[|path|] == name;
          }
        }
    }
  }

  /** Listing order: the entries' files come in the order of the entries. */
  lemma {:induction false} EligibleEntriesConcat(exts: seq<string>, path: seq<string>, a: seq<Node>, b: seq<Node>)
    ensures EligibleEntries(exts, path, a + b) == EligibleEntries(exts, path, a) + EligibleEntries(exts, path, b)
  {
    if b != [] {
      var b', x := b[..|b| - 1], b[|b| - 1];
      assert (a + b)[..|a + b| - 1] == a + b';
      assert (a + b)[|a + b| - 1] == x;
      EligibleEntriesConcat(exts, path, a, b');
      AppendAssociative(EligibleEntries(exts, path, a), EligibleEntries(exts, path, b'), EligibleEntry(exts, path, x));
    } else {
      assert a + b == a;
    }
  }

  /** Depth first: a subdirectory's files come right where the
      subdirectory is listed, after the files of earlier entries and before
      those of later ones; a pruned subdirectory contributes nothing,
      whatever it holds. */
  lemma EligibleSubdirectory(exts: seq<string>, path: seq<string>, before: seq<Node>,
                             name: string, listable: bool, entries: seq<Node>, after: seq<Node>)
    ensures EligibleEntries(exts, path, before + [Dir(name, listable, entries)] + after) ==
      EligibleEntries(exts, path, before) +
      (if Pruned(name) then [] else EligibleEntries(exts, path + [name], entries)) +
      EligibleEntries(exts, path, after)
  {
    var d := Dir(name, listable, entries);
    EligibleEntriesConcat(exts, path, before + [d], after);
    EligibleEntriesConcat(exts, path, before, [d]);
    assert [d][..0] == [];
    assert EligibleEntries(exts, path, [d]) == [] + EligibleEntry(exts, path, d);
  }

  // ---------------------------------------------------------------------
  // The imperative walk.

  /** `collectFiles`'s closure: `out` is the array `walk` pushes into. */
  class Collector {
    const exts: seq<string>
    const nameOf: seq<string> -> string
    var out: seq<FileData>

    constructor (exts: seq<string>, nameOf: seq<string> -> string)
      ensures this.exts == exts && this.nameOf == nameOf && out == []
    {
      this.exts := exts;
      this.nameOf := nameOf;
      out := [];
    }

    /** `walk(p)` for the node `n` at `path`. On failure (an exception in
        the source) `out` holds whatever was pushed before it. */
    method Walk(path: seq<string>, n: Node) returns (ok: bool)
      modifies this
      decreases n
      ensures ok <==> Visit(exts, path, n).Some?
      ensures ok ==> out == old(out) + Records(nameOf, Visit(exts, path, n).value)
    {
      if !n.Dir? || !n.listable {
        return false;
      }
      var entries := n.entries;
      ghost var start := out;
      for i := 0 to |entries|
        invariant VisitEntries(exts, path, entries[..i]).Some?
        invariant out == start + Records(nameOf, VisitEntries(exts, path, entries[..i]).value)
      {
        var e := entries[i];
        ghost var before := VisitEntries(exts, path, entries[..i]).value;
        VisitEntriesStep(exts, path, entries, i);
        ghost var out0 := out;
        if e.Dir? {
          if !Pruned(e.name) {
            var sub := Walk(path + [e.name], e);
            if !sub {
              VisitEntriesFailurePersists(exts, path, entries, i + 1);
              return false;
            }
          }
        } else if Ext(e.name) in exts && e.readable {
          out := out + [ToRecord(nameOf, Located(path, e.name, e.text, true))];
        }
        assert VisitEntry(exts, path, e).Some?;
        ghost var here := VisitEntry(exts, path, e).value;
        assert out == out0 + Records(nameOf, here);
        assert VisitEntries(exts, path, entries[..i + 1]) == Some(before + here);
        RecordsConcat(nameOf, before, here);
        AppendAssociative(start, Records(nameOf, before), Records(nameOf, here));
      }
      assert entries[..|entries|] == entries;
      ok := true;
    }
  }

  /** What `collectFiles(root)` resolves to, or None when it rejects. */
  function Collected(exts: seq<string>, nameOf: seq<string> -> string, root: Node): Option<seq<FileData>>
  {
    match Visit(exts, [], root)
    case None => None
    case Some(ls) => Some(Records(nameOf, ls))
  }

  /** `collectFiles(root, exts)`. */
  method CollectFiles(root: Node, exts: seq<string>, nameOf: seq<string> -> string) returns (ok: bool, files: seq<FileData>)
    ensures ok <==> Listable(root)
    ensures ok ==> files == Records(nameOf, ReadableOnly(Eligible(exts, [], root)))
    ensures Collected(exts, nameOf, root) == if ok then Some(files) else None
  {
    var c := new Collector(exts, nameOf);
    ok := c.Walk([], root);
    files := c.out;
    VisitIsReadableEligible(exts, [], root);
  }

  /** Every collected record is the whole text of an allow-listed file
      outside pruned directories, tagged with that file's extension; with the
      default list the 'file' fallback never applies. */
  lemma CollectedRecords(nameOf: seq<string> -> string, root: Node, i: nat)
    requires Listable(root)
    requires i < |ReadableOnly(Eligible(DefaultExts, [], root))|
    ensures var l := ReadableOnly(Eligible(DefaultExts, [], root))[i];
      var r := Records(nameOf, ReadableOnly(Eligible(DefaultExts, [], root)))[i];
      l in Eligible(DefaultExts, [], root) && l.readable &&
      r == FileData(nameOf(l.dirs + [l.name]), l.text, Ext(l.name)) &&
      r.fileType in DefaultExts &&
      forall k :: 0 <= k < |l.dirs| ==> !Pruned(l.dirs[k])
  {
    var l := ReadableOnly(Eligible(DefaultExts, [], root))[i];
    RecordsAt(nameOf, ReadableOnly(Eligible(DefaultExts, [], root)), i);
    EligibleIsProper(DefaultExts, [], root);
    assert Proper(DefaultExts, [], l);
    assert "" !in DefaultExts;
  }

  /** At most one record per eligible file, and one for each exactly when
      all of them are readable. */
  lemma CollectedCount(exts: seq<string>, root: Node)
    ensures |ReadableOnly(Eligible(exts, [], root))| <= |Eligible(exts, [], root)|
    ensures |ReadableOnly(Eligible(exts, [], root))| == |Eligible(exts, [], root)| <==>
      forall l :: l in Eligible(exts, [], root) ==> l.readable
  {
    ReadableOnlyAll(Eligible(exts, [], root));
  }

  // ---------------------------------------------------------------------
  // The top level of the script.

  datatype Failure = CollectFailed | ConversionFailed(message: string) | ParseFailed

  /** How a run ends. NoFiles is the run that finds nothing and prints the
      usage hint instead of calling the model. Printed carries the number of
      files and the text whose parsed value is printed. */
  datatype WorkerOutcome =
    | NoFiles
    | WorkerFailed(reason: Failure)
    | Printed(count: nat, resultText: string)

  function ExitStatus(o: WorkerOutcome): int
  {
    if o.Printed? then 0 else 1
  }

  /** The script's body with the default extensions. `requests` lists the
      requests sent to the model: none, or the one conversion's request.
      `parses` says whether JSON.parse accepts a text. Only ConversionFailed
      carries the message the catch block prints; the messages of a `readdir`
      error (CollectFailed) and of a JSON.parse error (ParseFailed) are not
      modelled. */
  method RunWorker(root: Node, nameOf: seq<string> -> string, env: GeminiService.Env,
                   generate: GeminiService.Request -> GeminiService.Reply, parses: string -> bool)
    returns (outcome: WorkerOutcome, requests: seq<GeminiService.Request>)
    ensures ExitStatus(outcome) == 1 <==> !outcome.Printed?
    ensures !Listable(root) ==> outcome == WorkerFailed(CollectFailed) && requests == []
    ensures Listable(root) && Eligible(DefaultExts, [], root) == [] ==> outcome == NoFiles && requests == []
    ensures outcome.NoFiles? <==> Collected(DefaultExts, nameOf, root) == Some([])
    ensures outcome.NoFiles? ==> ExitStatus(outcome) == 1 && requests == []
    ensures GeminiService.ResolveApiKey(env).None? && Collected(DefaultExts, nameOf, root).Some? && !outcome.NoFiles? ==>
      outcome == WorkerFailed(ConversionFailed(GeminiService.MissingKeyMessage)) && requests == []
    ensures |requests| <= 1
    ensures requests != [] ==>
      Collected(DefaultExts, nameOf, root).Some? && GeminiService.ResolveApiKey(env).Some? &&
      requests[0] == GeminiService.RequestFor(GeminiService.ResolveApiKey(env).value, Collected(DefaultExts, nameOf, root).value)
    ensures outcome.Printed? <==>
      Collected(DefaultExts, nameOf, root).Some? && Collected(DefaultExts, nameOf, root).value != [] &&
      var c := GeminiService.ConvertRepoToMVP(env, Collected(DefaultExts, nameOf, root).value, generate);
      c.Parsed? && parses(c.text)
    ensures outcome.Printed? ==> outcome.count == |Collected(DefaultExts, nameOf, root).value| > 0
    ensures outcome.Printed? ==>
      outcome.resultText == GeminiService.ConvertRepoToMVP(env, Collected(DefaultExts, nameOf, root).value, generate).text
    ensures (Collected(DefaultExts, nameOf, root).Some? && Collected(DefaultExts, nameOf, root).value != [] &&
             GeminiService.ResolveApiKey(env).Some?) ==>
      requests == [GeminiService.RequestFor(GeminiService.ResolveApiKey(env).value, Collected(DefaultExts, nameOf, root).value)]
    ensures Collected(DefaultExts, nameOf, root).Some? && Collected(DefaultExts, nameOf, root).value != [] ==>
      var c := GeminiService.ConvertRepoToMVP(env, Collected(DefaultExts, nameOf, root).value, generate);
      (c.RequestFailed? ==> outcome == WorkerFailed(ConversionFailed(c.message))) &&
      (c.EmptyResponse? ==> outcome == WorkerFailed(ConversionFailed(GeminiService.EmptyResponseMessage))) &&
      (c.Parsed? && !parses(c.text) ==> outcome == WorkerFailed(ParseFailed))
  {
    requests := [];
    var ok, files := CollectFiles(root, DefaultExts, nameOf);
    if !ok {
      return WorkerFailed(CollectFailed), requests;
    }
    if |files| == 0 {
      return NoFiles, requests;
    }
    var c := GeminiService.ConvertRepoToMVP(env, files, generate);
    if !c.MissingApiKey? {
      requests := [c.request];
    }
    match c
    case MissingApiKey =>
      outcome := WorkerFailed(ConversionFailed(GeminiService.MissingKeyMessage));
    case RequestFailed(_, message) =>
      outcome := WorkerFailed(ConversionFailed(message));
    case EmptyResponse(_) =>
      outcome := WorkerFailed(ConversionFailed(GeminiService.EmptyResponseMessage));
    case Parsed(_, text) =>
      outcome := if parses(text) then Printed(|files|, text) else WorkerFailed(ParseFailed);
  }
}
