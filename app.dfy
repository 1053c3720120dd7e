/** The web app's session (App.tsx): the state hooks become the fields of
    `Session`, each handler a method on it, and the helpers the page renders
    with (the log window, the backer total, the technology icon and the
    preview slug) pure functions. */
module App {
  import opened Types
  import GeminiService
  import FundingModal

  // ---------------------------------------------------------------------
  // The console log: `addLog` keeps the ten newest entries and appends.

  /** How many old entries `addLog` keeps before the new one. */
  const KeptLogs: nat := 10

  /** The newest `k` entries of `s` (all of them when there are fewer). */
  function Newest<T>(s: seq<T>, k: nat): (r: seq<T>)
    ensures |r| == if |s| <= k then |s| else k
  {
    if |s| <= k then s else s[|s| - k..]
  }

  /** `[...prev.slice(-10), msg]`. */
  function AppendLog(prev: seq<string>, msg: string): seq<string>
  {
    (if |prev| <= KeptLogs then prev else prev[|prev| - KeptLogs..]) + [msg]
  }

  /** `addLog` keeps a window: the result is the eleven newest messages of
      the whole history, the new one last. */
  lemma AppendLogWindow(prev: seq<string>, msg: string)
    ensures AppendLog(prev, msg) == Newest(prev + [msg], KeptLogs + 1)
    ensures |AppendLog(prev, msg)| <= KeptLogs + 1
    ensures AppendLog(prev, msg)[|AppendLog(prev, msg)| - 1] == msg
    ensures AppendLog(prev, msg)[..|AppendLog(prev, msg)| - 1] == Newest(prev, KeptLogs)
  {
    var s := prev + [msg];
    if |prev| > KeptLogs {
      assert s[|s| - (KeptLogs + 1)..] == prev[|prev| - KeptLogs..] + [msg];
    }
  }

  /** Trimming before appending changes nothing the window can see. */
  lemma NewestOfNewest<T>(s: seq<T>, t: seq<T>, k: nat)
    ensures Newest(Newest(s, k) + t, k) == Newest(s + t, k)
  {
    var n := Newest(s, k);
    var a := n + t;
    var b := s + t;
    assert b == s[..|s| - |n|] + a;
    var r1 := Newest(a, k);
    var r2 := Newest(b, k);
    assert |r1| == |r2|;
    forall i | 0 <= i < |r1|
      ensures r1[i] == r2[i]
    {
      assert r1[i] == a[|a| - |r1| + i];
      assert r2[i] == b[|b| - |r2| + i];
    }
  }

  /** One `addLog` after another, left to right. */
  function AppendAll(prev: seq<string>, msgs: seq<string>): seq<string>
    decreases |msgs|
  {
    if msgs == [] then prev else AppendAll(AppendLog(prev, msgs[0]), msgs[1..])
  }

  /** Any run of `addLog` calls on a log of at most eleven entries leaves the
      eleven newest messages of the whole history, in order. */
  lemma {:induction false} AppendAllWindow(prev: seq<string>, msgs: seq<string>)
    requires |prev| <= KeptLogs + 1
    ensures AppendAll(prev, msgs) == Newest(prev + msgs, KeptLogs + 1)
    decreases |msgs|
  {
    if msgs == [] {
      assert prev + msgs == prev;
    } else {
      var next := AppendLog(prev, msgs[0]);
      AppendLogWindow(prev, msgs[0]);
      AppendAllWindow(next, msgs[1..]);
      NewestOfNewest(prev + [msgs[0]], msgs[1..], KeptLogs + 1);
      assert prev + [msgs[0]] + msgs[1..] == prev + msgs;
    }
  }

  // ---------------------------------------------------------------------
  // Backers.

  /** `backers.reduce((a, b) => a + b.amount, 0)`, a left fold. */
  function Total(backers: seq<Funder>): int
  {
    if backers == [] then 0 else Total(backers[..|backers| - 1]) + backers[|backers| - 1].amount
  }

  /** Putting a backer in front adds exactly their amount to the total. */
  lemma {:induction false} TotalPrepend(f: Funder, backers: seq<Funder>)
    ensures Total([f] + backers) == f.amount + Total(backers)
    decreases |backers|
  {
    if backers != [] {
      var s := [f] + backers;
      assert s[..|s| - 1] == [f] + backers[..|backers| - 1];
      TotalPrepend(f, backers[..|backers| - 1]);
    }
  }

  /** The three backers the page starts with. */
  const InitialBackers: seq<Funder> :=
    [Funder("Elena Vance", 250, "2023-11-01"),
     Funder("Dr. Freeman", 500, "2023-11-05"),
     Funder("Alyx Vance", 150, "2023-11-08")]

  // ---------------------------------------------------------------------
  // Text helpers: ASCII lower case, substring search, JavaScript's `\s`.

  predicate IsUpper(c: char) { 'A' <= c <= 'Z' }

  function LowerChar(c: char): (d: char)
    ensures !IsUpper(d)
    ensures IsUpper(c) ==> d as int == c as int + 32
    ensures !IsUpper(c) ==> d == c
  {
    if IsUpper(c) then (c as int + 32) as char else c
  }

  /** `toLowerCase` on ASCII letters. */
  function Lower(s: string): (r: string)
    ensures |r| == |s|
    ensures forall i :: 0 <= i < |s| ==> r[i] == LowerChar(s[i])
  {
    seq(|s|, i requires 0 <= i < |s| => LowerChar(s[i]))
  }

  /** Lower-casing twice is lower-casing once. */
  lemma LowerIdempotent(s: string)
    ensures Lower(Lower(s)) == Lower(s)
  {
    assert forall i :: 0 <= i < |s| ==> LowerChar(LowerChar(s[i])) == LowerChar(s[i]);
  }

  /** `sub` occurs in `s` starting at index `i`. */
  predicate OccursAt(s: string, sub: string, i: nat)
  {
    i + |sub| <= |s| && s[i..i + |sub|] == sub
  }

  /** `s.includes(sub)`: `sub` occurs somewhere in `s`. */
  function Contains(s: string, sub: string): (b: bool)
    ensures b <==> exists i: nat :: OccursAt(s, sub, i)
    decreases |s|
  {
    if |sub| > |s| then false
    else if s[..|sub|] == sub then
      assert OccursAt(s, sub, 0);
      true
    else
      var b := Contains(s[1..], sub);
      assert forall i: nat :: OccursAt(s[1..], sub, i) <==> OccursAt(s, sub, i + 1);
      assert forall i: nat :: OccursAt(s, sub, i) ==> i > 0 && OccursAt(s[1..], sub, i - 1);
      b
  }

  /** Whether `t` mentions any of `words` (the `||` chains of `getTechIcon`). */
  function MentionsAny(t: string, words: seq<string>): (b: bool)
    ensures b <==> exists k :: 0 <= k < |words| && Contains(t, words[k])
  {
    if words == [] then false
    else
      var b := Contains(t, words[0]) || MentionsAny(t, words[1..]);
      assert forall k :: 1 <= k < |words| ==> words[k] == words[1..][k - 1];
      b
  }

  /** The characters the regular expression class `\s` matches. */
  predicate IsSpace(c: char)
  {
    c == ' ' || c == '\t' || c == '\n' || c == '\U{000B}' || c == '\U{000C}' || c == '\r' ||
    c == '\U{00A0}' || c == '\U{1680}' || ('\U{2000}' <= c <= '\U{200A}') ||
    c == '\U{2028}' || c == '\U{2029}' || c == '\U{202F}' || c == '\U{205F}' ||
    c == '\U{3000}' || c == '\U{FEFF}'
  }

  // ---------------------------------------------------------------------
  // `getTechIcon`: the first category whose keywords the name mentions.

  datatype TechIcon = Layout | Server | Database | Braces | Cloud | Shield | Smartphone | Box | GitBranch | Globe | Terminal

  const FrontendWords: seq<string> := ["react", "vue", "angular", "svelte", "frontend", "ui"]
  const BackendWords: seq<string> := ["node", "express", "backend", "api", "server"]
  const DatabaseWords: seq<string> := ["sql", "db", "mongo", "prisma", "database"]
  const LanguageWords: seq<string> := ["python", "js", "typescript", "rust", "go", "language"]
  const CloudWords: seq<string> := ["aws", "gcp", "azure", "cloud", "docker", "kubernetes"]
  const SecurityWords: seq<string> := ["security", "auth", "jwt", "firewall"]
  const MobileWords: seq<string> := ["native", "ios", "android", "mobile"]
  const PackageWords: seq<string> := ["npm", "yarn", "package"]
  const VersionWords: seq<string> := ["git", "github", "version"]
  const WebWords: seq<string> := ["web", "http", "browser"]

  /** The tests of `getTechIcon`, in the order it makes them. */
  const Categories: seq<(TechIcon, seq<string>)> :=
    [(Layout, FrontendWords), (Server, BackendWords), (Database, DatabaseWords),
     (Braces, LanguageWords), (Cloud, CloudWords), (Shield, SecurityWords),
     (Smartphone, MobileWords), (Box, PackageWords), (GitBranch, VersionWords),
     (Globe, WebWords)]

  /** `getTechIcon(tech)`, naming the icon instead of rendering it. */
  function TechIconOf(tech: string): TechIcon
  {
    var t := Lower(tech);
    if MentionsAny(t, FrontendWords) then Layout
    else if MentionsAny(t, BackendWords) then Server
    else if MentionsAny(t, DatabaseWords) then Database
    else if MentionsAny(t, LanguageWords) then Braces
    else if MentionsAny(t, CloudWords) then Cloud
    else if MentionsAny(t, SecurityWords) then Shield
    else if MentionsAny(t, MobileWords) then Smartphone
    else if MentionsAny(t, PackageWords) then Box
    else if MentionsAny(t, VersionWords) then GitBranch
    else if MentionsAny(t, WebWords) then Globe
    else Terminal
  }

  /** A reference reading of a first-match table: the icon of the first
      category that `t` mentions, Terminal when none does. */
  function FirstMatch(t: string, table: seq<(TechIcon, seq<string>)>): TechIcon
  {
    if table == [] then Terminal
    else if MentionsAny(t, table[0].1) then table[0].0
    else FirstMatch(t, table[1..])
  }

  /** One step of the first-match reading. */
  lemma FirstMatchStep(t: string, table: seq<(TechIcon, seq<string>)>, k: nat)
    requires k < |table|
    ensures FirstMatch(t, table[k..]) ==
      if MentionsAny(t, table[k].1) then table[k].0 else FirstMatch(t, table[k + 1..])
  {
    assert table[k..][1..] == table[k + 1..];
  }

  /** The last five tests of the chain, read off the table. */
  lemma LaterCategories(t: string)
    ensures FirstMatch(t, Categories[5..]) ==
      if MentionsAny(t, SecurityWords) then Shield
      else if MentionsAny(t, MobileWords) then Smartphone
      else if MentionsAny(t, PackageWords) then Box
      else if MentionsAny(t, VersionWords) then GitBranch
      else if MentionsAny(t, WebWords) then Globe
      else Terminal
  {
    var c := Categories;
    FirstMatchStep(t, c, 5);
    FirstMatchStep(t, c, 6);
    FirstMatchStep(t, c, 7);
    FirstMatchStep(t, c, 8);
    FirstMatchStep(t, c, 9);
    assert c[10..] == [];
  }

  /** The if-chain of `getTechIcon` is the first match over `Categories`. */
  lemma TechIconIsFirstMatch(tech: string)
    ensures TechIconOf(tech) == FirstMatch(Lower(tech), Categories)
  {
    var t := Lower(tech);
    var c := Categories;
    assert c[0..] == c;
    FirstMatchStep(t, c, 0);
    FirstMatchStep(t, c, 1);
    FirstMatchStep(t, c, 2);
    FirstMatchStep(t, c, 3);
    FirstMatchStep(t, c, 4);
    LaterCategories(t);
  }

  /** No icon appears twice in a table, and none is the Terminal default. */
  predicate DistinctIcons(table: seq<(TechIcon, seq<string>)>)
  {
    (forall i, j :: 0 <= i < j < |table| ==> table[i].0 != table[j].0) &&
    (forall i :: 0 <= i < |table| ==> table[i].0 != Terminal)
  }

  /** First match yields the icon of some row, or Terminal. */
  lemma {:induction false} FirstMatchIsRowOrDefault(t: string, table: seq<(TechIcon, seq<string>)>)
    ensures FirstMatch(t, table) == Terminal || exists j :: 0 <= j < |table| && FirstMatch(t, table) == table[j].0
  {
    if table != [] && !MentionsAny(t, table[0].1) {
      FirstMatchIsRowOrDefault(t, table[1..]);
      if FirstMatch(t, table) != Terminal {
        var j :| 0 <= j < |table| - 1 && FirstMatch(t, table[1..]) == table[1..][j].0;
        assert FirstMatch(t, table) == table[j + 1].0;
      }
    }
  }

  /** First match over a table of distinct icons: row `k` wins exactly when
      `t` mentions one of its words and none of any earlier row's. */
  lemma {:induction false} FirstMatchPicksRow(t: string, table: seq<(TechIcon, seq<string>)>, k: nat)
    requires DistinctIcons(table)
    requires k < |table|
    ensures FirstMatch(t, table) == table[k].0 <==>
      MentionsAny(t, table[k].1) && forall j :: 0 <= j < k ==> !MentionsAny(t, table[j].1)
    decreases k
  {
    if k > 0 && MentionsAny(t, table[0].1) {
      assert table[0].0 != table[k].0;
    } else if k > 0 {
      var rest := table[1..];
      assert DistinctIcons(rest);
      FirstMatchPicksRow(t, rest, k - 1);
      assert FirstMatch(t, table) == FirstMatch(t, rest);
      assert rest[k - 1] == table[k];
      if forall j :: 0 <= j < k - 1 ==> !MentionsAny(t, rest[j].1) {
        forall j | 0 <= j < k
          ensures !MentionsAny(t, table[j].1)
        {
          if j > 0 {
            assert table[j] == rest[j - 1];
          }
        }
      }
      if forall j :: 0 <= j < k ==> !MentionsAny(t, table[j].1) {
        forall j | 0 <= j < k - 1
          ensures !MentionsAny(t, rest[j].1)
        {
          assert rest[j] == table[j + 1];
        }
      }
    } else if !MentionsAny(t, table[0].1) {
      FirstMatchIsRowOrDefault(t, table[1..]);
    }
  }

  /** First match falls through to Terminal exactly when no row matches. */
  lemma {:induction false} FirstMatchDefault(t: string, table: seq<(TechIcon, seq<string>)>)
    requires DistinctIcons(table)
    ensures FirstMatch(t, table) == Terminal <==> forall j :: 0 <= j < |table| ==> !MentionsAny(t, table[j].1)
  {
    if table != [] {
      assert DistinctIcons(table[1..]);
      FirstMatchDefault(t, table[1..]);
      assert forall j :: 1 <= j < |table| ==> table[1..][j - 1] == table[j];
    }
  }

  lemma CategoriesAreDistinct()
    ensures DistinctIcons(Categories)
  {
  }

  /** `getTechIcon` is case-insensitive and first-match: the icon is that of
      category `k` exactly when the lower-cased name mentions one of its
      keywords and none of an earlier category's. */
  lemma TechIconCategory(tech: string, k: nat)
    requires k < |Categories|
    ensures TechIconOf(tech) == Categories[k].0 <==>
      MentionsAny(Lower(tech), Categories[k].1) &&
      forall j :: 0 <= j < k ==> !MentionsAny(Lower(tech), Categories[j].1)
  {
    TechIconIsFirstMatch(tech);
    CategoriesAreDistinct();
    FirstMatchPicksRow(Lower(tech), Categories, k);
  }

  /** The Terminal icon is the default: it is drawn exactly when no keyword
      of any category occurs in the lower-cased name. */
  lemma TechIconDefault(tech: string)
    ensures TechIconOf(tech) == Terminal <==>
      forall j :: 0 <= j < |Categories| ==> !MentionsAny(Lower(tech), Categories[j].1)
  {
    TechIconIsFirstMatch(tech);
    CategoriesAreDistinct();
    FirstMatchDefault(Lower(tech), Categories);
  }

  /** Case does not matter: a name and its lower-cased form get one icon. */
  lemma TechIconIgnoresCase(tech: string)
    ensures TechIconOf(tech) == TechIconOf(Lower(tech))
  {
    LowerIdempotent(tech);
  }

  /** "React Native" is drawn as a frontend (its 'native' never gets a say). */
  lemma ReactNativeIsFrontend()
    ensures TechIconOf("React Native") == Layout
  {
    var t := Lower("React Native");
    assert t[..5] == "react";
    assert OccursAt(t, FrontendWords[0], 0);
  }

  /** A word whose first letter does not occur in `s` does not occur in it. */
  lemma FirstLetterAbsent(s: string, sub: string)
    requires |sub| > 0 && forall i :: 0 <= i < |s| ==> s[i] != sub[0]
    ensures !Contains(s, sub)
  {
  }

  lemma MongoMentionsNoFrontend()
    ensures !MentionsAny("mongo", FrontendWords)
  {
    FirstLetterAbsent("mongo", "react");
    FirstLetterAbsent("mongo", "vue");
    FirstLetterAbsent("mongo", "angular");
    FirstLetterAbsent("mongo", "svelte");
    FirstLetterAbsent("mongo", "frontend");
    FirstLetterAbsent("mongo", "ui");
  }

  lemma MongoMentionsNoBackend()
    ensures !MentionsAny("mongo", BackendWords)
  {
    var t := "mongo";
    assert t[0..4] == "mong" && t[1..5] == "ongo";
    assert forall i: nat :: !OccursAt(t, "node", i);
    FirstLetterAbsent(t, "express");
    FirstLetterAbsent(t, "backend");
    FirstLetterAbsent(t, "api");
    FirstLetterAbsent(t, "server");
  }

  lemma MongoMentionsDatabaseAndLanguage()
    ensures Lower("Mongo") == "mongo"
    ensures MentionsAny("mongo", DatabaseWords) && MentionsAny("mongo", LanguageWords)
  {
    assert OccursAt("mongo", DatabaseWords[2], 0);
    assert OccursAt("mongo", LanguageWords[4], 3);
  }

  /** "Mongo" is a database, although it also mentions the language 'go'. */
  lemma MongoIsDatabase()
    ensures TechIconOf("Mongo") == Database
    ensures MentionsAny(Lower("Mongo"), LanguageWords)
  {
    MongoMentionsDatabaseAndLanguage();
    MongoMentionsNoFrontend();
    MongoMentionsNoBackend();
    assert forall j :: 0 <= j < 2 ==> !MentionsAny("mongo", Categories[j].1);
    TechIconCategory("Mongo", 2);
  }

  /** Every keyword is at least two characters long, so a name of one
      character gets the Terminal default. */
  lemma ShortNamesAreTerminal(tech: string)
    requires |tech| <= 1
    ensures TechIconOf(tech) == Terminal
  {
    forall j, w | 0 <= j < |Categories| && w in Categories[j].1
      ensures !Contains(Lower(tech), w)
    {
      assert |w| >= 2;
    }
    TechIconDefault(tech);
  }

  // ---------------------------------------------------------------------
  // The preview address: `projectName.toLowerCase().replace(/\s+/g, '-')`.

  predicate NoSpace(s: string) { forall i :: 0 <= i < |s| ==> !IsSpace(s[i]) }
  predicate NoUpper(s: string) { forall i :: 0 <= i < |s| ==> !IsUpper(s[i]) }

  /** What is left after a run of whitespace at the front. */
  function SkipSpaces(s: string): (r: string)
    ensures |r| <= |s|
  {
    if s != [] && IsSpace(s[0]) then SkipSpaces(s[1..]) else s
  }

  /** `SkipSpaces` drops a whitespace prefix and stops at the first
      character that is not whitespace. */
  lemma {:induction false} SkipSpacesShape(s: string)
    ensures SkipSpaces(s) == s[|s| - |SkipSpaces(s)|..]
    ensures SkipSpaces(s) == [] || !IsSpace(SkipSpaces(s)[0])
    ensures forall i :: 0 <= i < |s| - |SkipSpaces(s)| ==> IsSpace(s[i])
    decreases |s|
  {
    if s != [] && IsSpace(s[0]) {
      SkipSpacesShape(s[1..]);
      assert forall i :: 1 <= i < |s| ==> s[i] == s[1..][i - 1];
    }
  }

  /** `replace(/\s+/g, '-')`: every maximal run of whitespace becomes one
      dash; every other character is kept. */
  function Dashify(s: string): string
    decreases |s|
  {
    if s == [] then []
    else if IsSpace(s[0]) then "-" + Dashify(SkipSpaces(s[1..]))
    else [s[0]] + Dashify(s[1..])
  }

  /** No whitespace survives, and no upper-case letter appears that was
      not there before. */
  lemma {:induction false} DashifyNoSpace(s: string)
    ensures NoSpace(Dashify(s))
    decreases |s|
  {
    if s != [] {
      var rest := if IsSpace(s[0]) then SkipSpaces(s[1..]) else s[1..];
      DashifyNoSpace(rest);
      var r := Dashify(s);
      assert r[1..] == Dashify(rest);
      assert forall i :: 1 <= i < |r| ==> r[i] == r[1..][i - 1];
    }
  }

  lemma {:induction false} DashifyNoUpper(s: string)
    requires NoUpper(s)
    ensures NoUpper(Dashify(s))
    decreases |s|
  {
    if s != [] {
      var rest := if IsSpace(s[0]) then SkipSpaces(s[1..]) else s[1..];
      SkipSpacesShape(s[1..]);
      assert rest == s[|s| - |rest|..];
      assert NoUpper(rest);
      DashifyNoUpper(rest);
      var r := Dashify(s);
      assert r[1..] == Dashify(rest);
      assert forall i :: 1 <= i < |r| ==> r[i] == r[1..][i - 1];
    }
  }

  /** The slug of a project name in the preview address. */
  function Slug(name: string): (r: string)
    ensures NoSpace(r) && NoUpper(r)
  {
    DashifyNoSpace(Lower(name));
    DashifyNoUpper(Lower(name));
    Dashify(Lower(name))
  }

  /** A text without whitespace is left as it is. */
  lemma {:induction false} DashifyKeepsSpaceless(s: string)
    requires NoSpace(s)
    ensures Dashify(s) == s
    decreases |s|
  {
    if s != [] {
      DashifyKeepsSpaceless(s[1..]);
    }
  }

  /** A text with no upper-case letter is its own lower case. */
  lemma LowerKeepsLowercase(s: string)
    requires NoUpper(s)
    ensures Lower(s) == s
  {
  }

  /** Whitespace followed by more text is skipped as one block. */
  lemma {:induction false} SkipSpacesPrefix(w: string, b: string)
    requires (b == [] || !IsSpace(b[0])) && forall i :: 0 <= i < |w| ==> IsSpace(w[i])
    ensures SkipSpaces(w + b) == b
    decreases |w|
  {
    if w == [] {
      assert w + b == b;
    } else {
      assert (w + b)[1..] == w[1..] + b;
      SkipSpacesPrefix(w[1..], b);
    }
  }

  /** Skipping leading whitespace in front of text that has some non-space
      character ignores what follows. */
  lemma {:induction false} SkipSpacesAppend(a: string, b: string)
    requires exists i :: 0 <= i < |a| && !IsSpace(a[i])
    ensures SkipSpaces(a + b) == SkipSpaces(a) + b
    decreases |a|
  {
    if IsSpace(a[0]) {
      assert (a + b)[1..] == a[1..] + b;
      var i :| 0 <= i < |a| && !IsSpace(a[i]);
      assert a[1..][i - 1] == a[i];
      SkipSpacesAppend(a[1..], b);
    }
  }

  /** A whitespace run at the front becomes one dash. */
  lemma LeadingRun(w: string, b: string)
    requires |w| > 0 && forall i :: 0 <= i < |w| ==> IsSpace(w[i])
    requires b == [] || !IsSpace(b[0])
    ensures Dashify(w + b) == "-" + Dashify(b)
  {
    assert (w + b)[0] == w[0];
    assert (w + b)[1..] == w[1..] + b;
    SkipSpacesPrefix(w[1..], b);
  }

  /** Each maximal whitespace run `w` between `a` and `b` (neither touching
      it with whitespace of its own) turns into exactly one dash, and the
      two sides are treated independently. */
  lemma {:induction false} DashifyRun(a: string, w: string, b: string)
    requires a == [] || !IsSpace(a[|a| - 1])
    requires |w| > 0 && forall i :: 0 <= i < |w| ==> IsSpace(w[i])
    requires b == [] || !IsSpace(b[0])
    ensures Dashify(a + w + b) == Dashify(a) + "-" + Dashify(b)
    decreases |a|, 1
  {
    if a == [] {
      assert a + w + b == w + b;
      LeadingRun(w, b);
    } else if IsSpace(a[0]) {
      RunAfterSpace(a, w, b);
    } else {
      RunAfterLetter(a, w, b);
    }
  }

  /** `DashifyRun` when `a` starts with whitespace of its own. */
  lemma {:induction false} RunAfterSpace(a: string, w: string, b: string)
    requires a != [] && IsSpace(a[0]) && !IsSpace(a[|a| - 1])
    requires |w| > 0 && forall i :: 0 <= i < |w| ==> IsSpace(w[i])
    requires b == [] || !IsSpace(b[0])
    ensures Dashify(a + w + b) == Dashify(a) + "-" + Dashify(b)
    decreases |a|, 0
  {
    var s := a + w + b;
    assert s[0] == a[0];
    assert s[1..] == a[1..] + (w + b);
    var rest := SkipSpaces(a[1..]);
    SkipSpacesShape(a[1..]);
    assert a[1..][|a| - 2] == a[|a| - 1];
    SkipSpacesAppend(a[1..], w + b);
    AppendAssociative(rest, w, b);
    DashifyRun(rest, w, b);
    assert Dashify(s) == "-" + (Dashify(rest) + "-" + Dashify(b));
  }

  /** `DashifyRun` when `a` starts with a character that is kept. */
  lemma {:induction false} RunAfterLetter(a: string, w: string, b: string)
    requires a != [] && !IsSpace(a[0]) && !IsSpace(a[|a| - 1])
    requires |w| > 0 && forall i :: 0 <= i < |w| ==> IsSpace(w[i])
    requires b == [] || !IsSpace(b[0])
    ensures Dashify(a + w + b) == Dashify(a) + "-" + Dashify(b)
    decreases |a|, 0
  {
    var s := a + w + b;
    assert s[0] == a[0];
    assert s[1..] == a[1..] + w + b;
    DashifyRun(a[1..], w, b);
    assert Dashify(s) == [a[0]] + (Dashify(a[1..]) + "-" + Dashify(b));
  }

  /** The slug of a slug is itself. */
  lemma SlugIdempotent(name: string)
    ensures Slug(Slug(name)) == Slug(name)
  {
    LowerKeepsLowercase(Slug(name));
    DashifyKeepsSpaceless(Slug(name));
  }

  /** A lower-case name without whitespace is its own slug. */
  lemma SlugOfPlainName(name: string)
    requires NoSpace(name) && NoUpper(name)
    ensures Slug(name) == name
  {
    LowerKeepsLowercase(name);
    DashifyKeepsSpaceless(name);
  }

  // ---------------------------------------------------------------------
  // The upload pipeline's pieces.

  /** A browser `File`: its name, the text `file.text()` resolves to, and
      its MIME type. */
  datatype Upload = Upload(name: string, text: string, mimeType: string)

  const StartMessage := "> Initiating repo analysis sequence..."
  const ReadingPrefix := "> Reading binary: "
  const PayloadMessage := "> Payload stabilized. Handing over to Gemini 3 Pro..."
  const ValuationMessage := "> Calculating market valuation metrics..."
  const DoneMessage := "> Synthesis complete. Rendering KRACKED view."
  const FailureMessage := "!! Critical Error during conversion !!"

  /** The record `handleFileUpload` pushes for one file. */
  function ToFileData(u: Upload): FileData
  {
    FileData(u.name, u.text, u.mimeType)
  }

  /** The records for the uploads, in upload order. */
  function FileList(us: seq<Upload>): (fs: seq<FileData>)
    ensures |fs| == |us|
  {
    if us == [] then [] else FileList(us[..|us| - 1]) + [ToFileData(us[|us| - 1])]
  }

  /** One record per upload, at the upload's position, carrying its name,
      whole text and type. */
  lemma {:induction false} FileListAt(us: seq<Upload>, i: nat)
    requires i < |us|
    ensures FileList(us)[i] == FileData(us[i].name, us[i].text, us[i].mimeType)
    decreases |us|
  {
    if i < |us| - 1 {
      FileListAt(us[..|us| - 1], i);
    }
  }

  /** The "reading" lines, one per upload in upload order. */
  function ReadingLines(us: seq<Upload>): (lines: seq<string>)
    ensures |lines| == |us|
  {
    if us == [] then [] else ReadingLines(us[..|us| - 1]) + [ReadingPrefix + us[|us| - 1].name]
  }

  /** Every message an upload of `us` logs, in order, ending with the
      success or the failure line. */
  function UploadMessages(us: seq<Upload>, converted: bool): seq<string>
  {
    [StartMessage] + ReadingLines(us) + [PayloadMessage, ValuationMessage] +
    [if converted then DoneMessage else FailureMessage]
  }

  /** The console after an upload: at most eleven lines, the last saying how
      the conversion went; with few files it shows everything from the
      start line on. */
  lemma UploadLogShape(us: seq<Upload>, converted: bool)
    ensures var log := Newest(UploadMessages(us, converted), KeptLogs + 1);
      |log| == (if |us| + 4 <= KeptLogs + 1 then |us| + 4 else KeptLogs + 1) &&
      log[|log| - 1] == (if converted then DoneMessage else FailureMessage) &&
      (|us| + 4 <= KeptLogs + 1 ==> log[0] == StartMessage)
  {
  }

  /** What `convertRepoToMVP(fileList)` resolves to in the browser, or None
      when it throws: a missing key, an empty answer, or `parse` (JSON.parse)
      rejecting the text. */
  function Converted(env: GeminiService.Env, files: seq<FileData>,
                     generate: GeminiService.Request -> GeminiService.Reply,
                     parse: string -> Option<MVPData>): (data: Option<MVPData>)
    ensures data.Some? ==>
      var c := GeminiService.ConvertRepoToMVP(env, files, generate);
      c.Parsed? && data == parse(c.text)
    ensures GeminiService.ResolveApiKey(env).None? ==> data.None?
    ensures data.Some? <==>
      GeminiService.ResolveApiKey(env).Some? &&
      var r := generate(GeminiService.RequestFor(GeminiService.ResolveApiKey(env).value, files));
      r.Answered? && GeminiService.Truthy(r.text) && parse(r.text.value).Some?
  {
    match GeminiService.ConvertRepoToMVP(env, files, generate)
    case Parsed(_, text) => parse(text)
    case _ => None
  }

  // ---------------------------------------------------------------------
  // The component's state.

  datatype Tab = Overview | Tech | Funding | Community

  class Session {
    var files: seq<FileData>
    var isConverting: bool
    var mvpData: Option<MVPData>
    var activeTab: Tab
    var isSponsorModalOpen: bool
    var logs: seq<string>
    var backers: seq<Funder>
    /** Results waiting for the one-second reveal timer, oldest first. */
    var pendingReveals: seq<MVPData>
    /** Every message logged since the console was last cleared. */
    ghost var logHistory: seq<string>

    /** The console always shows the eleven newest messages since it was
        last cleared. */
    ghost predicate Valid()
      reads this
    {
      logs == Newest(logHistory, KeptLogs + 1)
    }

    /** The state hooks' initial values. */
    constructor ()
      ensures Valid()
      ensures files == [] && !isConverting && mvpData == None && activeTab == Overview
      ensures !isSponsorModalOpen && logs == [] && backers == InitialBackers && pendingReveals == []
      ensures Total(backers) == 900
    {
      files := [];
      isConverting := false;
      mvpData := None;
      activeTab := Overview;
      isSponsorModalOpen := false;
      logs := [];
      logHistory := [];
      backers := InitialBackers;
      pendingReveals := [];
      InitialTotal();
    }

    /** `addLog(msg)`. */
    method AddLog(msg: string)
      requires Valid()
      modifies this
      ensures Valid()
      ensures logs == AppendLog(old(logs), msg) && logHistory == old(logHistory) + [msg]
      ensures files == old(files) && isConverting == old(isConverting) && mvpData == old(mvpData)
      ensures activeTab == old(activeTab) && isSponsorModalOpen == old(isSponsorModalOpen)
      ensures backers == old(backers) && pendingReveals == old(pendingReveals)
    {
      AppendLogWindow(logs, msg);
      NewestOfNewest(logHistory, [msg], KeptLogs + 1);
      logs := AppendLog(logs, msg);
      logHistory := logHistory + [msg];
    }

    /** `addFunder(name, amount)`, with today's date passed in: the new
        backer goes first and the total grows by its amount. */
    method AddFunder(name: string, amount: int, today: string)
      requires Valid()
      modifies this
      ensures Valid()
      ensures backers == [Funder(name, amount, today)] + old(backers)
      ensures Total(backers) == Total(old(backers)) + amount
      ensures files == old(files) && isConverting == old(isConverting) && mvpData == old(mvpData)
      ensures activeTab == old(activeTab) && isSponsorModalOpen == old(isSponsorModalOpen)
      ensures logs == old(logs) && logHistory == old(logHistory) && pendingReveals == old(pendingReveals)
    {
      TotalPrepend(Funder(name, amount, today), backers);
      backers := [Funder(name, amount, today)] + backers;
    }

    /** `resetApp`: back to the upload screen. The backers, the dialog flag
        and any reveal still pending are left as they are. */
    method ResetApp()
      modifies this
      ensures Valid()
      ensures files == [] && mvpData == None && logs == [] && !isConverting && activeTab == Overview
      ensures logHistory == []
      ensures backers == old(backers) && isSponsorModalOpen == old(isSponsorModalOpen)
      ensures pendingReveals == old(pendingReveals)
    {
      files := [];
      mvpData := None;
      logs := [];
      logHistory := [];
      isConverting := false;
      activeTab := Overview;
    }

    /** A tab button. */
    method SelectTab(tab: Tab)
      requires Valid()
      modifies this
      ensures Valid()
      ensures activeTab == tab
      ensures files == old(files) && isConverting == old(isConverting) && mvpData == old(mvpData)
      ensures isSponsorModalOpen == old(isSponsorModalOpen) && logs == old(logs) && logHistory == old(logHistory)
      ensures backers == old(backers) && pendingReveals == old(pendingReveals)
    {
      activeTab := tab;
    }

    /** The "Sponsor Build" button (true) and the dialog's `onClose` (false). */
    method SetSponsorModalOpen(open: bool)
      requires Valid()
      modifies this
      ensures Valid()
      ensures isSponsorModalOpen == open
      ensures files == old(files) && isConverting == old(isConverting) && mvpData == old(mvpData)
      ensures activeTab == old(activeTab) && logs == old(logs) && logHistory == old(logHistory)
      ensures backers == old(backers) && pendingReveals == old(pendingReveals)
    {
      isSponsorModalOpen := open;
    }

    /** The loop of `handleFileUpload`: log each file's name, then read it
        into a record, in upload order. */
    method ReadUploads(us: seq<Upload>) returns (fileList: seq<FileData>)
      requires Valid()
      modifies this
      ensures Valid()
      ensures fileList == FileList(us)
      ensures logHistory == old(logHistory) + ReadingLines(us)
      ensures files == old(files) && isConverting == old(isConverting) && mvpData == old(mvpData)
      ensures activeTab == old(activeTab) && isSponsorModalOpen == old(isSponsorModalOpen)
      ensures backers == old(backers) && pendingReveals == old(pendingReveals)
    {
      fileList := [];
      for i := 0 to |us|
        invariant Valid()
        invariant fileList == FileList(us[..i])
        invariant logHistory == old(logHistory) + ReadingLines(us[..i])
        invariant files == old(files) && isConverting == old(isConverting) && mvpData == old(mvpData)
        invariant activeTab == old(activeTab) && isSponsorModalOpen == old(isSponsorModalOpen)
        invariant backers == old(backers) && pendingReveals == old(pendingReveals)
      {
        AddLog(ReadingPrefix + us[i].name);
        assert us[..i + 1][..i] == us[..i];
        AppendAssociative(old(logHistory), ReadingLines(us[..i]), [ReadingPrefix + us[i].name]);
        fileList := fileList + [ToFileData(us[i])];
      }
      assert us[..|us|] == us;
    }

    /** The part of `handleFileUpload` before the service call: converting
        starts, the console restarts with the start line, the files are
        read, and the two hand-over lines are logged. */
    method BeginUpload(us: seq<Upload>) returns (fileList: seq<FileData>)
      requires Valid()
      modifies this
      ensures Valid()
      ensures fileList == FileList(us) && files == fileList && isConverting
      ensures logHistory == [StartMessage] + ReadingLines(us) + [PayloadMessage, ValuationMessage]
      ensures mvpData == old(mvpData) && pendingReveals == old(pendingReveals)
      ensures activeTab == old(activeTab) && isSponsorModalOpen == old(isSponsorModalOpen)
      ensures backers == old(backers)
    {
      isConverting := true;
      logs := [];
      logHistory := [];
      AddLog(StartMessage);
      fileList := ReadUploads(us);
      files := fileList;
      AddLog(PayloadMessage);
      AddLog(ValuationMessage);
    }

    /** `handleFileUpload`. `uploaded` is the input's file list (None when
        absent); `convert` is `convertRepoToMVP` as the page sees it, None
        standing for a thrown error (`Converted` below). An empty selection
        changes nothing. Otherwise the console restarts, the files are read
        into records in order, and the call's outcome decides the rest: a
        result is queued for the reveal timer, a failure logs the error line
        and ends converting with the result left as it was. */
    method HandleFileUpload(uploaded: Option<seq<Upload>>, convert: seq<FileData> -> Option<MVPData>)
      requires Valid()
      modifies this
      ensures Valid()
      ensures uploaded.None? || uploaded.value == [] ==>
        files == old(files) && isConverting == old(isConverting) && mvpData == old(mvpData) &&
        logs == old(logs) && logHistory == old(logHistory) && pendingReveals == old(pendingReveals)
      ensures uploaded.Some? && uploaded.value != [] ==>
        var data := convert(FileList(uploaded.value));
        files == FileList(uploaded.value) &&
        logHistory == UploadMessages(uploaded.value, data.Some?) &&
        mvpData == old(mvpData) &&
        isConverting == data.Some? &&
        pendingReveals == old(pendingReveals) + (if data.Some? then [data.value] else [])
      ensures activeTab == old(activeTab) && isSponsorModalOpen == old(isSponsorModalOpen)
      ensures backers == old(backers)
    {
      if uploaded.None? || |uploaded.value| == 0 {
        return;
      }
      var fileList := BeginUpload(uploaded.value);
      var data := convert(fileList);
      if data.Some? {
        AddLog(DoneMessage);
        pendingReveals := pendingReveals + [data.value];
      } else {
        AddLog(FailureMessage);
        isConverting := false;
      }
    }

    /** The one-second timer after a successful conversion: the oldest
        queued result is shown and converting ends. */
    method RevealTimerFires()
      requires Valid()
      modifies this
      ensures Valid()
      ensures old(pendingReveals) != [] ==>
        mvpData == Some(old(pendingReveals)[0]) && !isConverting &&
        pendingReveals == old(pendingReveals)[1..]
      ensures old(pendingReveals) == [] ==>
        mvpData == old(mvpData) && isConverting == old(isConverting) && pendingReveals == []
      ensures files == old(files) && logs == old(logs) && logHistory == old(logHistory)
      ensures activeTab == old(activeTab)
      ensures isSponsorModalOpen == old(isSponsorModalOpen) && backers == old(backers)
    {
      if pendingReveals != [] {
        mvpData := Some(pendingReveals[0]);
        isConverting := false;
        pendingReveals := pendingReveals[1..];
      }
    }

    /** The dialog's second timer, wired as `onSuccess={addFunder}` and
        `onClose={() => setIsSponsorModalOpen(false)}`: the captured name
        and amount become the newest backer and the dialog closes. */
    method SponsorThankYouFires(form: FundingModal.SponsorForm, today: string)
      requires Valid() && form.Valid()
      modifies this, form
      ensures Valid() && form.Valid()
      ensures old(form.timer).ThankYouPending? ==>
        backers == [Funder(old(form.timer).name, old(form.timer).amount, today)] + old(backers) &&
        !isSponsorModalOpen &&
        form.timer == FundingModal.Idle && !form.isSuccess && !form.isProcessing &&
        form.payouts == old(form.payouts) + 1
      ensures !old(form.timer).ThankYouPending? ==>
        backers == old(backers) && isSponsorModalOpen == old(isSponsorModalOpen) &&
        form.timer == old(form.timer) && form.isSuccess == old(form.isSuccess) &&
        form.isProcessing == old(form.isProcessing) && form.payouts == old(form.payouts)
      ensures form.name == old(form.name) && form.amount == old(form.amount) && form.submits == old(form.submits)
      ensures files == old(files) && isConverting == old(isConverting) && mvpData == old(mvpData)
      ensures activeTab == old(activeTab) && logs == old(logs) && logHistory == old(logHistory)
      ensures pendingReveals == old(pendingReveals)
    {
      var sponsorship, close := form.ThankYouTimerFires();
      if sponsorship.Some? {
        AddFunder(sponsorship.value.name, sponsorship.value.amount, today);
      }
      if close {
        SetSponsorModalOpen(false);
      }
    }
  }

  /** The total the funding tab starts from. */
  lemma InitialTotal()
    ensures Total(InitialBackers) == 900
  {
    var b := InitialBackers;
    assert b[..2][..1] == b[..1] && b[..1][..0] == [];
    assert Total(b[..1]) == 250;
    assert Total(b[..2]) == 750;
  }

  /** An upload followed by its reveal on a fresh page: the page shows
      exactly what the service call produced, with converting over and the
      console ending in the line that says how the call went. */
  method UploadThenReveal(us: seq<Upload>, env: GeminiService.Env,
                          generate: GeminiService.Request -> GeminiService.Reply,
                          parse: string -> Option<MVPData>)
    returns (shown: Option<MVPData>, converting: bool, lastLog: string)
    requires us != []
    ensures shown == Converted(env, FileList(us), generate, parse)
    ensures !converting
    ensures lastLog == if shown.Some? then DoneMessage else FailureMessage
  {
    var page := new Session();
    page.HandleFileUpload(Some(us), fs => Converted(env, fs, generate, parse));
    ghost var data := Converted(env, FileList(us), generate, parse);
    UploadLogShape(us, data.Some?);
    lastLog := page.logs[|page.logs| - 1];
    page.RevealTimerFires();
    shown := page.mvpData;
    converting := page.isConverting;
  }
}
