/**
The source export: a classification of paths into material to keep out and source to keep, and a walk
that prunes a directory when a file named `_` inside it would be kept out. The walk is meant to yield
what filtering every file would.
*/
module SourcePolicy {

  import opened Basics
  import PrunedWalk

  datatype Reason =
    | LocalCache | DevelopmentOutput | Temporary | ProcessRecord | LocalNotes
    | ManualReview | LocalInput | Credentials | GeneratedOutput | Archive

  datatype Rules = Rules(
    cache: set<string>, privateRoots: set<string>, prefixes: set<string>, notes: set<string>, reviews: set<string>,
    files: set<string>, generated: set<string>, material: set<string>)

  /** The lists, and the platform's case folding and lower-casing. */
  datatype Policy = Policy(rules: Rules, fold: string -> string, lower: string -> string)

  // ---------- pure paths ----------

  function Slashes(s: string): (r: string)
    ensures |r| == |s|
  {
    seq(|s|, i requires 0 <= i < |s| => if s[i] == '\\' then '/' else s[i])
  }

  function Split(s: string): (r: seq<string>)
    ensures r != []
  {
    if s == "" then [""]
    else if s[0] == '/' then [""] + Split(s[1..])
    else var r := Split(s[1..]); [[s[0]] + r[0]] + r[1..]
  }

  /** Empty and dot segments disappear. */
  function Dropped(segments: seq<string>): seq<string> {
    if segments == [] then []
    else if segments[0] == "" || segments[0] == "." then Dropped(segments[1..])
    else [segments[0]] + Dropped(segments[1..])
  }

  function Tail(s: string): seq<string> { Dropped(Split(s)) }

  function Lead(s: string): nat {
    if s != "" && s[0] == '/' then 1 + Lead(s[1..]) else 0
  }

  /** Exactly two leading slashes are a root of their own. */
  function Root(s: string): string {
    if Lead(s) == 0 then "" else if Lead(s) == 2 then "//" else "/"
  }

  function Join(names: seq<string>): string {
    if names == [] then "" else if |names| == 1 then names[0] else names[0] + "/" + Join(names[1..])
  }

  function Posix(root: string, tail: seq<string>): string {
    if root == "" && tail == [] then "." else root + Join(tail)
  }

  function Parts(root: string, tail: seq<string>): seq<string> {
    if root == "" then tail else [root] + tail
  }

  /** The last dot of a name, unless it is the first or the last character. */
  function LastDot(s: string): int {
    if s == "" then -1 else if s[|s| - 1] == '.' then |s| - 1 else LastDot(s[..|s| - 1])
  }

  function Suffix(name: string): string {
    var i := LastDot(name);
    if 0 < i < |name| - 1 then name[i..] else ""
  }

  function NameOf(tail: seq<string>): string { if tail == [] then "" else tail[|tail| - 1] }

  // ---------- the classification ----------

  function Folded(p: Policy, parts: seq<string>): (r: seq<string>)
    ensures |r| == |parts|
  {
    seq(|parts|, i requires 0 <= i < |parts| => p.fold(parts[i]))
  }

  predicate StartsWithAny(value: string, prefixes: set<string>) {
    exists x :: x in prefixes && x <= value
  }

  predicate EndsWith(value: string, ending: string) {
    |ending| <= |value| && value[|value| - |ending|..] == ending
  }

  predicate CheckFolder(parts: seq<string>) {
    parts != [] && parts[0] == "web" && exists i :: 1 <= i < |parts| && ".sfc-check-" <= parts[i]
  }

  predicate NativeTemplate(value: string) {
    "src/gxw/templates/" <= value && (EndsWith(value, ".gxw") || EndsWith(value, ".zip.xz"))
  }

  function ReasonOf(p: Policy, root: string, tail: seq<string>): Option<Reason> {
    var parts := Folded(p, Parts(root, tail));
    var value := p.fold(Posix(root, tail));
    var name := p.fold(NameOf(tail));
    var suffix := p.lower(Suffix(NameOf(tail)));
    if exists i :: 0 <= i < |parts| && parts[i] in p.rules.cache then Some(LocalCache)
    else if parts != [] && parts[0] in p.rules.privateRoots then Some(DevelopmentOutput)
    else if parts != [] && "tmp_" <= parts[0] then Some(Temporary)
    else if CheckFolder(parts) then Some(Temporary)
    else if StartsWithAny(value, p.rules.prefixes) then Some(ProcessRecord)
    else if name in p.rules.notes then Some(LocalNotes)
    else if "tools/fact_" <= value || value in p.rules.reviews then Some(ManualReview)
    else if value in p.rules.files then Some(LocalInput)
    else if ".env" <= name && name != ".env.example" then Some(Credentials)
    else if suffix in p.rules.generated then Some(GeneratedOutput)
    else if suffix in p.rules.material && !NativeTemplate(value) then Some(Archive)
    else None
  }

  function ExclusionReason(p: Policy, name: string): Option<Reason> {
    ReasonOf(p, Root(Slashes(name)), Tail(Slashes(name)))
  }

  predicate Excluded(p: Policy, path: seq<string>) { ExclusionReason(p, Join(path)).Some? }

  /** The walk does not enter the folder. */
  predicate Pruned(p: Policy, folder: seq<string>) { ExclusionReason(p, Join(folder) + "/_").Some? }

  // ---------- what the proof needs of the lists and of the platform ----------

  predicate EndsInProbe(s: string) { |s| >= 2 && s[|s| - 2] == '/' && s[|s| - 1] == '_' }

  /** No entry can be met by the probe's own `_`, or by a path that is nothing but a root. */
  predicate Sound(r: Rules) {
    && (forall s :: s in r.cache + r.privateRoots ==> s !in {"_", "/", "//"})
    && (forall s :: s in r.prefixes + r.reviews + r.files ==> s != "" && s[0] != '/' && s[0] != '_' && !EndsInProbe(s))
    && "_" !in r.notes && "" !in r.generated && "" !in r.material
  }

  /** Folding works character by character and leaves the separator and the probe alone. */
  ghost predicate Faithful(p: Policy) {
    && (forall a, b :: p.fold(a + b) == p.fold(a) + p.fold(b))
    && p.fold("/") == "/" && p.fold("_") == "_" && p.lower("") == ""
  }

  // ---------- path lemmas ----------

  lemma {:induction false} SplitJoins(a: string, b: string)
    ensures Split(a + "/" + b) == Split(a) + Split(b)
    decreases |a|
  {
    if a == "" {
      assert (a + "/" + b)[1..] == b;
    } else {
      assert (a + "/" + b)[1..] == a[1..] + "/" + b;
      SplitJoins(a[1..], b);
    }
  }

  lemma {:induction false} DroppedJoins(a: seq<string>, b: seq<string>)
    ensures Dropped(a + b) == Dropped(a) + Dropped(b)
    decreases |a|
  {
    if a == [] {
      assert a + b == b;
    } else {
      assert (a + b)[1..] == a[1..] + b;
      DroppedJoins(a[1..], b);
    }
  }

  lemma TailJoins(a: string, b: string)
    ensures Tail(a + "/" + b) == Tail(a) + Tail(b)
  {
    SplitJoins(a, b);
    DroppedJoins(Split(a), Split(b));
  }

  /** Where something is left of a path's start, the root is settled there. */
  lemma {:induction false} LeadSettled(a: string, b: string)
    requires Tail(a) != []
    ensures Lead(a + b) == Lead(a)
    decreases |a|
  {
    if a != "" && a[0] == '/' {
      assert (a + b)[1..] == a[1..] + b;
      assert Split(a)[1..] == Split(a[1..]);
      LeadSettled(a[1..], b);
    }
  }

  lemma {:induction false} JoinJoins(a: seq<string>, b: seq<string>)
    requires a != [] && b != []
    ensures Join(a + b) == Join(a) + "/" + Join(b)
    decreases |a|
  {
    if |a| == 1 {
      assert (a + b)[1..] == b;
    } else {
      assert (a + b)[1..] == a[1..] + b;
      JoinJoins(a[1..], b);
    }
  }

  lemma SlashesJoin(a: string, b: string)
    ensures Slashes(a + "/" + b) == Slashes(a) + "/" + Slashes(b)
  {
  }

  // ---------- what the probe says ----------

  /** A folder's path followed by the separator, case-folded: what every path below it starts with. */
  function Base(p: Policy, root: string, tail: seq<string>): string { p.fold(root + Join(tail)) + "/" }

  predicate PartsRule(p: Policy, parts: seq<string>) {
    || (exists i :: 0 <= i < |parts| && parts[i] in p.rules.cache)
    || (parts != [] && parts[0] in p.rules.privateRoots)
    || (parts != [] && "tmp_" <= parts[0])
    || CheckFolder(parts)
  }

  predicate StartRule(p: Policy, value: string) {
    StartsWithAny(value, p.rules.prefixes) || "tools/fact_" <= value
  }

  /** The rules that speak of a folder and not of one file in it. */
  predicate FolderRule(p: Policy, root: string, tail: seq<string>) {
    PartsRule(p, Folded(p, Parts(root, tail))) || StartRule(p, Base(p, root, tail))
  }

  lemma PartsExtend(p: Policy, root: string, tail: seq<string>, t: seq<string>)
    requires tail != []
    ensures var parts := Folded(p, Parts(root, tail));
            parts != [] && Folded(p, Parts(root, tail + t)) == parts + Folded(p, t)
  {
    assert Parts(root, tail + t) == Parts(root, tail) + t;
    FoldedJoins(p, Parts(root, tail), t);
  }

  lemma FoldedJoins(p: Policy, a: seq<string>, b: seq<string>)
    ensures Folded(p, a + b) == Folded(p, a) + Folded(p, b)
  {
  }

  lemma {:induction false} ValueExtends(p: Policy, root: string, tail: seq<string>, t: seq<string>)
    requires Faithful(p) && tail != [] && t != []
    ensures p.fold(Posix(root, tail + t)) == Base(p, root, tail) + p.fold(Join(t))
  {
    JoinJoins(tail, t);
    var x := root + Join(tail);
    assert root + Join(tail + t) == (x + "/") + Join(t);
  }

  /** A folder rule keeps out every path below the folder. */
  lemma BelowFolder(p: Policy, root: string, tail: seq<string>, t: seq<string>)
    requires Faithful(p) && tail != [] && t != [] && FolderRule(p, root, tail)
    ensures ReasonOf(p, root, tail + t).Some?
  {
    var parts, all := Folded(p, Parts(root, tail)), Folded(p, Parts(root, tail + t));
    PartsExtend(p, root, tail, t);
    ValueExtends(p, root, tail, t);
    assert all[0] == parts[0];
    if PartsRule(p, parts) {
      assert forall i :: 0 <= i < |parts| ==> all[i] == parts[i];
    } else {
      StartExtends(p, Base(p, root, tail), p.fold(Join(t)));
    }
  }

  lemma StartExtends(p: Policy, base: string, more: string)
    requires StartRule(p, base)
    ensures StartRule(p, base + more)
  {
    assert base <= base + more;
    if StartsWithAny(base, p.rules.prefixes) {
      var x :| x in p.rules.prefixes && x <= base;
      assert x <= base + more;
    }
  }

  lemma StartOfProbe(p: Policy, base: string)
    requires Sound(p.rules) && StartRule(p, base + "_") && base != "" && base[|base| - 1] == '/'
    ensures StartRule(p, base)
  {
    var value := base + "_";
    if StartsWithAny(value, p.rules.prefixes) {
      var x :| x in p.rules.prefixes && x <= value;
      assert x in p.rules.prefixes + p.rules.reviews + p.rules.files;
      ShorterPrefix(x, base);
    } else {
      assert !EndsInProbe("tools/fact_");
      ShorterPrefix("tools/fact_", base);
    }
  }

  lemma ShorterPrefix(x: string, base: string)
    requires x <= base + "_" && !EndsInProbe(x) && base != "" && base[|base| - 1] == '/'
    ensures x <= base
  {
    assert |x| == |base| + 1 ==> x == base + "_";
  }

  /** And nothing but a folder rule keeps out the probe. */
  lemma ProbeShowsFolder(p: Policy, root: string, tail: seq<string>)
    requires Sound(p.rules) && Faithful(p) && tail != [] && ReasonOf(p, root, tail + ["_"]).Some?
    ensures FolderRule(p, root, tail)
  {
    var parts, all := Folded(p, Parts(root, tail)), Folded(p, Parts(root, tail + ["_"]));
    PartsExtend(p, root, tail, ["_"]);
    ValueExtends(p, root, tail, ["_"]);
    assert Folded(p, ["_"]) == ["_"];
    ProbeParts(p, parts);
    ProbeName(p);
    var value := Base(p, root, tail) + "_";
    assert EndsInProbe(value);
    if StartRule(p, value) {
      StartOfProbe(p, Base(p, root, tail));
    }
  }

  lemma ProbeParts(p: Policy, parts: seq<string>)
    requires Sound(p.rules) && parts != []
    ensures PartsRule(p, parts + ["_"]) ==> PartsRule(p, parts)
  {
    var all := parts + ["_"];
    assert forall i :: 0 <= i < |parts| ==> all[i] == parts[i];
    assert all[|parts|] == "_" && "_" !in p.rules.cache + p.rules.privateRoots;
    assert !(".sfc-check-" <= "_");
  }

  lemma ProbeName(p: Policy)
    requires Sound(p.rules) && Faithful(p)
    ensures p.fold("_") !in p.rules.notes && !(".env" <= p.fold("_"))
    ensures Suffix("_") == "" && p.lower(Suffix("_")) !in p.rules.generated + p.rules.material
  {
    assert LastDot("_") == -1;
  }

  lemma FoldedRoot(p: Policy, root: string)
    requires Faithful(p) && root in {"", "/", "//"}
    ensures p.fold(root + "_") == root + "_" && p.fold(root) == root
  {
    assert "//" == "/" + "/";
    assert p.fold("//") == p.fold("/") + p.fold("/");
    assert p.fold("" + "") == p.fold("") + p.fold("") && "" + "" == "";
    assert p.fold(root + "_") == p.fold(root) + p.fold("_");
  }

  /** A probe in a folder of which nothing is left but a root is never kept out. */
  lemma BareProbe(p: Policy, root: string)
    requires Sound(p.rules) && Faithful(p) && root in {"", "/", "//"}
    ensures ReasonOf(p, root, ["_"]).None?
  {
    FoldedRoot(p, root);
    var value := root + "_";
    assert Posix(root, ["_"]) == value;
    assert value[0] == '/' || value[0] == '_';
    var parts := Folded(p, Parts(root, ["_"]));
    assert parts == if root == "" then ["_"] else [root, "_"];
    BareParts(p, parts);
    forall x | x in p.rules.prefixes + p.rules.reviews + p.rules.files
      ensures !(x <= value)
    {
      assert x[0] != value[0];
    }
    assert value in p.rules.reviews || value in p.rules.files ==> value <= value;
    assert "tools/fact_"[0] == 't';
    ProbeName(p);
    NoRuleNoReason(p, root, ["_"]);
  }

  lemma BareParts(p: Policy, parts: seq<string>)
    requires Sound(p.rules) && parts in {["_"], ["/", "_"], ["//", "_"]}
    ensures !PartsRule(p, parts)
  {
    forall i | 0 <= i < |parts|
      ensures parts[i] !in p.rules.cache + p.rules.privateRoots
    {
      assert parts[i] in {"_", "/", "//"};
    }
    assert parts[0][0] == '_' || parts[0][0] == '/';
    assert "tmp_"[0] == 't' && "web"[0] == 'w';
  }

  /** The classification keeps what none of its rules meets. */
  lemma NoRuleNoReason(p: Policy, root: string, tail: seq<string>)
    requires !PartsRule(p, Folded(p, Parts(root, tail))) && !StartRule(p, p.fold(Posix(root, tail)))
    requires p.fold(Posix(root, tail)) !in p.rules.reviews && p.fold(Posix(root, tail)) !in p.rules.files
    requires p.fold(NameOf(tail)) !in p.rules.notes && !(".env" <= p.fold(NameOf(tail)))
    requires p.lower(Suffix(NameOf(tail))) !in p.rules.generated && p.lower(Suffix(NameOf(tail))) !in p.rules.material
    ensures ReasonOf(p, root, tail).None?
  {
  }

  lemma ProbeTail()
    ensures Tail("_") == ["_"]
  {
    assert "_"[1..] == "" && Split("") == [""] && [""][1..] == [];
    assert Split("_") == [['_'] + ""] + [""][1..];
    assert ['_'] + "" == "_";
    assert ["_"][1..] == [];
  }

  /** A folder is pruned exactly when something is left of its path and a folder rule covers it. */
  lemma {:induction false} PrunedIsFolderRule(p: Policy, folder: seq<string>)
    requires Sound(p.rules) && Faithful(p)
    ensures var f := Slashes(Join(folder));
            Pruned(p, folder) <==> Tail(f) != [] && FolderRule(p, Root(f), Tail(f))
  {
    var f := Slashes(Join(folder));
    var probe := Slashes(Join(folder) + "/_");
    SlashesJoin(Join(folder), "_");
    assert Join(folder) + "/_" == Join(folder) + "/" + "_";
    assert probe == f + "/" + "_";
    TailJoins(f, "_");
    ProbeTail();
    if Tail(f) == [] {
      assert Tail(probe) == ["_"];
      BareProbe(p, Root(probe));
    } else {
      LeadSettled(f, "/" + "_");
      assert probe == f + ("/" + "_");
      if FolderRule(p, Root(f), Tail(f)) {
        BelowFolder(p, Root(f), Tail(f), ["_"]);
      }
      if Pruned(p, folder) {
        ProbeShowsFolder(p, Root(f), Tail(f));
      }
    }
  }

  /** Nothing is left of these names: they are made of backslashes and dots between them. */
  predicate Vanishes(names: seq<string>) { Tail(Slashes(Join(names))) == [] }

  lemma {:induction false} PathBelow(folder: seq<string>, rest: seq<string>)
    requires folder != [] && rest != [] && Tail(Slashes(Join(folder))) != []
    ensures var f, t, g := Slashes(Join(folder)), Slashes(Join(rest)), Slashes(Join(folder + rest));
            Root(g) == Root(f) && Tail(g) == Tail(f) + Tail(t)
  {
    var f, t := Slashes(Join(folder)), Slashes(Join(rest));
    JoinJoins(folder, rest);
    SlashesJoin(Join(folder), Join(rest));
    TailJoins(f, t);
    LeadSettled(f, "/" + t);
    assert f + "/" + t == f + ("/" + t);
  }

  /**
  Below a pruned folder a path is kept out as well, except where nothing is left of it below the
  folder; then it is the folder's own path, and kept out or not as a file of that name would be.
  */
  lemma {:induction false} BelowPruned(p: Policy, folder: seq<string>, rest: seq<string>)
    requires Sound(p.rules) && Faithful(p) && folder != [] && rest != [] && Pruned(p, folder)
    ensures !Vanishes(rest) ==> Excluded(p, folder + rest)
    ensures Vanishes(rest) ==> ExclusionReason(p, Join(folder + rest)) == ExclusionReason(p, Join(folder))
  {
    var f, t := Slashes(Join(folder)), Slashes(Join(rest));
    PrunedIsFolderRule(p, folder);
    PathBelow(folder, rest);
    if Tail(t) != [] {
      BelowFolder(p, Root(f), Tail(f), Tail(t));
    } else {
      assert Tail(f) + [] == Tail(f);
    }
  }

  lemma KeptHasNoRule(p: Policy, root: string, tail: seq<string>)
    requires ReasonOf(p, root, tail).None?
    ensures !PartsRule(p, Folded(p, Parts(root, tail))) && !StartRule(p, p.fold(Posix(root, tail)))
  {
  }

  lemma StartsWhole(p: Policy, value: string)
    requires !StartRule(p, value)
    ensures StartRule(p, value + "/") <==> value + "/" in p.rules.prefixes
  {
    var base := value + "/";
    if StartsWithAny(base, p.rules.prefixes) {
      var x :| x in p.rules.prefixes && x <= base;
      assert |x| <= |value| ==> x <= value;
      assert x == base;
    }
    var x := "tools/fact_";
    assert x[|x| - 1] == '_' && base[|base| - 1] == '/';
    assert x <= base ==> x <= value;
    assert base <= base;
  }

  /**
  The folders that are pruned although a file of their name would be kept are exactly those that a
  prefix names whole, such as `docs/reports/`.
  */
  lemma {:induction false} PrunedButKept(p: Policy, folder: seq<string>)
    requires Sound(p.rules) && Faithful(p) && !Excluded(p, folder) && Tail(Slashes(Join(folder))) != []
    ensures var f := Slashes(Join(folder));
            Pruned(p, folder) <==> Base(p, Root(f), Tail(f)) in p.rules.prefixes
  {
    var f := Slashes(Join(folder));
    PrunedIsFolderRule(p, folder);
    KeptHasNoRule(p, Root(f), Tail(f));
    StartsWhole(p, p.fold(Posix(Root(f), Tail(f))));
  }

  // ---------- the walk is the filter ----------

  /**
  The path goes through a folder that a prefix names whole and that would be kept as a file, and below
  it nothing of the path is left.
  */
  predicate EscapesAt(p: Policy, path: seq<string>, k: nat)
    requires k <= |path|
  {
    var f := Slashes(Join(path[..k]));
    Tail(f) != [] && Base(p, Root(f), Tail(f)) in p.rules.prefixes && !Excluded(p, path[..k]) && Vanishes(path[k..])
  }

  predicate Escapes(p: Policy, path: seq<string>) {
    exists k :: 0 < k < |path| && EscapesAt(p, path, k)
  }

  lemma HiddenAndKept(p: Policy, path: seq<string>)
    requires Sound(p.rules) && Faithful(p)
    ensures Escapes(p, path) <==> PrunedWalk.Hidden(Prunes(p), path, 0) && !Excluded(p, path)
  {
    forall k: nat | 0 < k < |path|
      ensures EscapesAt(p, path, k) <==> Pruned(p, path[..k]) && !Excluded(p, path)
    {
      assert path == path[..k] + path[k..];
      if !Excluded(p, path[..k]) && Tail(Slashes(Join(path[..k]))) != [] {
        PrunedButKept(p, path[..k]);
      }
      if Pruned(p, path[..k]) {
        PrunedIsFolderRule(p, path[..k]);
        BelowPruned(p, path[..k], path[k..]);
      }
    }
  }

  function Excludes(p: Policy): PrunedWalk.Test { path => Excluded(p, path) }

  function Prunes(p: Policy): PrunedWalk.Test { folder => Pruned(p, folder) }

  /**
  Over every tree the walk yields exactly what the filter keeps, in the same order, if and only if no
  file escapes: a file whose name is only backslashes and dots, inside a folder such as `docs/reports`.
  */
  lemma {:induction false} WalkIsFilter(p: Policy, d: PrunedWalk.Directory)
    requires Sound(p.rules) && Faithful(p)
    ensures var all := PrunedWalk.AllFiles(d, []);
            PrunedWalk.Walked(Excludes(p), Prunes(p), all, 0) == PrunedWalk.Kept(Excludes(p), all)
            <==> forall path :: path in all ==> !Escapes(p, path)
  {
    var all := PrunedWalk.AllFiles(d, []);
    PrunedWalk.FiltersAgree(Excludes(p), Prunes(p), all);
    forall path | path in all
      ensures Escapes(p, path) <==> PrunedWalk.Hidden(Prunes(p), path, 0) && !Excludes(p)(path)
    {
      HiddenAndKept(p, path);
    }
  }

  // ---------- the repository's lists ----------

  const INSTRUCTIONS := "resources/instructions/mitsubishi/"

  function CacheDirectories(): set<string> {
    {".git", ".venv", ".venv-mcp", "__pycache__", ".pytest_cache", ".mypy_cache", ".ruff_cache", ".hypothesis",
      "node_modules"}
  }

  function PrivateDirectories(): set<string> {
    {"research", "evidence", "experiments", "acceptance", "reports", "tmp", "temp",
     "local", "logs", "test-results", "playwright-report", "coverage", ".tmp",
     ".codex", ".agents", ".workbuddy", ".runtime", "build", "dist", "out"}
  }

  function PrivatePrefixes(): set<string> {
    {"docs/reports/", "docs/process/", "docs/internal/", "docs/research/",
     "resources/knowledge/", "resources/gxw/", "tests/fixtures/", "publication/public/",
     "web/dist/", "tests/tmp/", "checks/tmp/", INSTRUCTIONS + "instruction_definitions"}
  }

  function NoteNames(): set<string> { {"agents.md", "claude.md", ".coverage", ".ds_store"} }

  function ReviewFiles(): set<string> {
    {"tools/fbd_fact_review.py", "tools/build_fact_knowledge.py", "tools/validate_fact_knowledge.py"}
  }

  function PrivateFiles(): set<string> {
    {"config.json", "src/config.json", "publication/public-files.json", "tools/download_mitsubishi_manuals.py",
     "examples/comment.csv", "examples/plc_import_comment.csv", "examples/plc_import_program.csv",
     "examples/real_import_program.csv", "tools/private_materials.py",
     INSTRUCTIONS + "device_definitions.json",
     INSTRUCTIONS + "fx3u_contract_promotions.json",
     INSTRUCTIONS + "fx3u_instruction_quarantine.json",
     INSTRUCTIONS + "fx3u_operand_semantic_promotions.json",
     INSTRUCTIONS + "instruction_behavior_facts.json",
     INSTRUCTIONS + "instruction_source_authority.json",
     INSTRUCTIONS + "operand_semantic_coverage_summary.json"}
  }

  function MaterialSuffixes(): set<string> {
    {".pdf", ".chm", ".djvu", ".gxw", ".gx3", ".gxp", ".gpj", ".gpp", ".zip", ".7z", ".rar", ".xz", ".gz", ".bz2",
     ".sqlite", ".sqlite3", ".db", ".npz"}
  }

  function GeneratedSuffixes(): set<string> {
    {".pyc", ".pyo", ".log", ".tsbuildinfo", ".exe", ".dll", ".pdb", ".sqlite-shm", ".sqlite-wal"}
  }

  function Repository(): Rules {
    Rules(CacheDirectories(), PrivateDirectories(), PrivatePrefixes(), NoteNames(), ReviewFiles(),
          PrivateFiles(), GeneratedSuffixes(), MaterialSuffixes())
  }

  predicate Usable(s: string) { s != "" && s[0] != '/' && s[0] != '_' && !EndsInProbe(s) }

  lemma UsableBelow(folder: string, name: string)
    requires folder != "" && folder[0] != '/' && folder[0] != '_' && |name| >= 2 && !EndsInProbe(name)
    ensures Usable(folder + name)
  {
  }

  lemma PrefixesUsable()
    ensures forall s :: s in PrivatePrefixes() ==> Usable(s)
  {
    assert Usable("docs/reports/");
    assert Usable("docs/process/");
    assert Usable("docs/internal/");
    assert Usable("docs/research/");
    assert Usable("resources/knowledge/");
    assert Usable("resources/gxw/");
    assert Usable("tests/fixtures/");
    assert Usable("publication/public/");
    assert Usable("web/dist/");
    assert Usable("tests/tmp/");
    assert Usable("checks/tmp/");
    UsableBelow(INSTRUCTIONS, "instruction_definitions");
  }

  lemma FilesUsable()
    ensures forall s :: s in PrivateFiles() ==> Usable(s)
  {
    assert Usable("config.json");
    assert Usable("src/config.json");
    assert Usable("publication/public-files.json");
    assert Usable("tools/download_mitsubishi_manuals.py");
    assert Usable("examples/comment.csv");
    assert Usable("examples/plc_import_comment.csv");
    assert Usable("examples/plc_import_program.csv");
    assert Usable("examples/real_import_program.csv");
    assert Usable("tools/private_materials.py");
    UsableBelow(INSTRUCTIONS, "device_definitions.json");
    UsableBelow(INSTRUCTIONS, "fx3u_contract_promotions.json");
    UsableBelow(INSTRUCTIONS, "fx3u_instruction_quarantine.json");
    UsableBelow(INSTRUCTIONS, "fx3u_operand_semantic_promotions.json");
    UsableBelow(INSTRUCTIONS, "instruction_behavior_facts.json");
    UsableBelow(INSTRUCTIONS, "instruction_source_authority.json");
    UsableBelow(INSTRUCTIONS, "operand_semantic_coverage_summary.json");
  }

  lemma ReviewsUsable()
    ensures forall s :: s in ReviewFiles() ==> Usable(s)
  {
    assert Usable("tools/fbd_fact_review.py");
    assert Usable("tools/build_fact_knowledge.py");
    assert Usable("tools/validate_fact_knowledge.py");
  }

  lemma DirectoriesUsable()
    ensures forall s :: s in CacheDirectories() + PrivateDirectories() ==> s !in {"_", "/", "//"}
  {
  }

  lemma SuffixesUsable()
    ensures "_" !in NoteNames() && "" !in GeneratedSuffixes() && "" !in MaterialSuffixes()
  {
  }

  lemma SoundFromLists(r: Rules)
    requires forall s :: s in r.cache + r.privateRoots ==> s !in {"_", "/", "//"}
    requires forall s :: s in r.prefixes ==> Usable(s)
    requires forall s :: s in r.reviews ==> Usable(s)
    requires forall s :: s in r.files ==> Usable(s)
    requires "_" !in r.notes && "" !in r.generated && "" !in r.material
    ensures Sound(r)
  {
  }

  lemma RepositoryIsSound()
    ensures Sound(Repository())
  {
    PrefixesUsable();
    FilesUsable();
    ReviewsUsable();
    DirectoriesUsable();
    SuffixesUsable();
    SoundFromLists(Repository());
  }

  // ---------- a file that escapes ----------

  lemma {:induction false} PlainSplit(s: string)
    requires '/' !in s
    ensures Split(s) == [s]
    decreases |s|
  {
    if s != "" {
      assert '/' !in s[1..];
      PlainSplit(s[1..]);
      assert [s[0]] + s[1..] == s;
    }
  }

  lemma PlainTail(s: string)
    requires '/' !in s && s != "" && s != "."
    ensures Tail(s) == [s]
  {
    PlainSplit(s);
    assert Dropped([s][1..]) == [];
    assert Dropped([s]) == [s] + Dropped([s][1..]);
  }

  lemma {:induction false} NoDot(s: string)
    requires '.' !in s
    ensures LastDot(s) == -1
    decreases |s|
  {
    if s != "" {
      NoDot(s[..|s| - 1]);
    }
  }

  /** The walk over a whole tree, with its pruning. */
  method SourceFiles(p: Policy, root: PrunedWalk.Directory) returns (yielded: seq<seq<string>>)
    requires Sound(p.rules) && Faithful(p) && PrunedWalk.WellNamed(root)
    ensures var all := PrunedWalk.AllFiles(root, []);
            yielded == PrunedWalk.Kept(Excludes(p), all) <==> forall path :: path in all ==> !Escapes(p, path)
    ensures PrunedWalk.NoRepeats(yielded)
    ensures forall path :: path in yielded <==>
                             path in PrunedWalk.AllFiles(root, []) && !Excluded(p, path) && !Escapes(p, path)
  {
    yielded := PrunedWalk.SourceFiles(Excludes(p), Prunes(p), root, []);
    WalkIsFilter(p, root);
    PrunedWalk.YieldedOnce(Excludes(p), Prunes(p), root);
    forall path
      ensures Escapes(p, path) <==> PrunedWalk.Hidden(Prunes(p), path, 0) && !Excluded(p, path)
    {
      HiddenAndKept(p, path);
    }
  }

  /** Two plain names that no list mentions, in a path that no prefix starts. */
  ghost predicate Unlisted(p: Policy, a: string, b: string) {
    && a !in p.rules.cache && b !in p.rules.cache && a !in p.rules.privateRoots && b !in p.rules.notes
    && a + "/" + b !in p.rules.reviews && a + "/" + b !in p.rules.files
    && (forall x :: x in p.rules.prefixes ==> !(x <= a + "/" + b))
    && "" !in p.rules.generated && "" !in p.rules.material
    && (forall s :: p.fold(s) == s && p.lower(s) == s)
  }

  ghost predicate Plain(s: string) { s != "" && '/' !in s && '\\' !in s && '.' !in s }

  lemma TwoPlainParts(p: Policy, a: string, b: string)
    requires Unlisted(p, a, b) && a != "" && a[0] !in {'t', 'w'}
    ensures !PartsRule(p, [a, b])
  {
    assert "tmp_"[0] == 't' && "web"[0] == 'w';
  }

  lemma TwoPlainNames(p: Policy, a: string, b: string)
    requires Unlisted(p, a, b) && Plain(a) && Plain(b) && a[0] !in {'t', 'w'}
    ensures Posix("", [a, b]) == a + "/" + b && ReasonOf(p, "", [a, b]).None?
  {
    var tail, value := [a, b], a + "/" + b;
    assert tail[1..] == [b] && Join([b]) == b;
    assert Join(tail) == value && "" + value == value;
    assert Folded(p, Parts("", tail)) == tail;
    TwoPlainParts(p, a, b);
    assert value[0] == a[0] && "tools/fact_"[0] == 't' && ".env"[0] == '.' && b[0] in b;
    NoDot(b);
    NoRuleNoReason(p, "", tail);
  }

  lemma PlainFolder(a: string, b: string)
    requires Plain(a) && Plain(b)
    ensures var f := Slashes(Join([a, b]));
            f == a + "/" + b && Root(f) == "" && Tail(f) == [a, b]
  {
    var f := a + "/" + b;
    assert [a, b][1..] == [b] && Join([a, b]) == f;
    SlashesJoin(a, b);
    assert Slashes(a) == a && Slashes(b) == b;
    TailJoins(a, b);
    PlainTail(a);
    PlainTail(b);
    assert f[0] == a[0] && a[0] in a;
  }

  /** A file of which nothing is left, in a folder that a prefix names whole, escapes. */
  lemma EscapesBelow(p: Policy, a: string, b: string, file: string)
    requires Unlisted(p, a, b) && Plain(a) && Plain(b) && a[0] !in {'t', 'w'}
    requires Tail(Slashes(file)) == [] && a + "/" + b + "/" in p.rules.prefixes
    ensures Escapes(p, [a, b, file])
  {
    var path := [a, b, file];
    assert path[..2] == [a, b] && path[2..] == [file];
    PlainFolder(a, b);
    TwoPlainNames(p, a, b);
    assert "" + Join([a, b]) == Join([a, b]);
    EscapesHere(p, path, 2);
  }

  lemma EscapesHere(p: Policy, path: seq<string>, k: nat)
    requires 0 < k < |path| && EscapesAt(p, path, k)
    ensures Escapes(p, path)
  {
  }

  /** On the tree that holds only one file, walk and filter differ exactly when it escapes. */
  lemma WalkMisses(p: Policy, a: string, b: string, file: string)
    requires Sound(p.rules) && Faithful(p)
    ensures PrunedWalk.Walked(Excludes(p), Prunes(p), [[a, b, file]], 0) != PrunedWalk.Kept(Excludes(p), [[a, b, file]])
            <==> Escapes(p, [a, b, file])
  {
    var d := PrunedWalk.Chain(a, b, file);
    PrunedWalk.ChainHasOneFile(a, b, file);
    WalkIsFilter(p, d);
    assert [a, b, file] in PrunedWalk.AllFiles(d, []);
  }

  lemma RootOnly()
    ensures Tail("/") == []
  {
    assert "/"[1..] == "" && Split("/") == [""] + Split("");
    assert Dropped(["", ""][1..]) == Dropped([""]) && Dropped([""][1..]) == [];
  }

  function Plainly(): Policy { Policy(Repository(), s => s, s => s) }

  lemma DocsPrefixes()
    ensures forall x :: x in PrivatePrefixes() ==> |x| > 12 || (x != "" && x[0] != 'd')
    ensures "docs" + "/" + "reports" + "/" in PrivatePrefixes()
  {
    assert "docs" + "/" + "reports" + "/" == "docs/reports/";
  }

  lemma DocsFiles()
    ensures forall s :: s in PrivateFiles() ==> s != "" && s[0] != 'd'
  {
    StartsLikeFolder("device_definitions.json");
    StartsLikeFolder("fx3u_contract_promotions.json");
    StartsLikeFolder("fx3u_instruction_quarantine.json");
    StartsLikeFolder("fx3u_operand_semantic_promotions.json");
    StartsLikeFolder("instruction_behavior_facts.json");
    StartsLikeFolder("instruction_source_authority.json");
    StartsLikeFolder("operand_semantic_coverage_summary.json");
  }

  lemma StartsLikeFolder(name: string)
    ensures INSTRUCTIONS + name != "" && (INSTRUCTIONS + name)[0] == 'r'
  {
  }

  lemma DocsReviews()
    ensures forall s :: s in ReviewFiles() ==> s != "" && s[0] != 'd'
  {
  }

  lemma DocsDirectories()
    ensures "docs" !in CacheDirectories() && "reports" !in CacheDirectories() && "docs" !in PrivateDirectories()
    ensures "reports" !in NoteNames()
  {
  }

  /** Lists with nothing that starts like `a`, or nothing short enough. */
  lemma UnlistedFrom(p: Policy, a: string, b: string)
    requires a != "" && a !in p.rules.cache && b !in p.rules.cache && a !in p.rules.privateRoots && b !in p.rules.notes
    requires forall s :: s in p.rules.files ==> s != "" && s[0] != a[0]
    requires forall s :: s in p.rules.reviews ==> s != "" && s[0] != a[0]
    requires forall x :: x in p.rules.prefixes ==> |x| > |a| + 1 + |b| || (x != "" && x[0] != a[0])
    requires "" !in p.rules.generated && "" !in p.rules.material
    requires forall s :: p.fold(s) == s && p.lower(s) == s
    ensures Unlisted(p, a, b)
  {
    var value := a + "/" + b;
    assert value[0] == a[0] && |value| == |a| + 1 + |b|;
  }

  lemma DocsReportsUnlisted()
    ensures Unlisted(Plainly(), "docs", "reports")
  {
    DocsPrefixes();
    DocsFiles();
    DocsReviews();
    DocsDirectories();
    SuffixesUsable();
    UnlistedFrom(Plainly(), "docs", "reports");
  }

  /**
  The smallest tree on which walk and filter differ: a file named by one backslash in `docs/reports`.
  The filter keeps it, under the path of the folder itself; the walk does not enter the folder.
  */
  lemma EscapingFile()
    ensures Escapes(Plainly(), ["docs", "reports", "\\"])
    ensures PrunedWalk.AllFiles(PrunedWalk.Chain("docs", "reports", "\\"), []) == [["docs", "reports", "\\"]]
    ensures PrunedWalk.Walked(Excludes(Plainly()), Prunes(Plainly()), [["docs", "reports", "\\"]], 0)
            != PrunedWalk.Kept(Excludes(Plainly()), [["docs", "reports", "\\"]])
  {
    var a, b, file := "docs", "reports", "\\";
    ReportsEscapes(Plainly(), a, b, file);
    RepositoryIsSound();
    WalkMisses(Plainly(), a, b, file);
    PrunedWalk.ChainHasOneFile(a, b, file);
  }

  lemma ReportsEscapes(p: Policy, a: string, b: string, file: string)
    requires p == Plainly() && a == "docs" && b == "reports" && file == "\\"
    ensures Escapes(p, [a, b, file])
  {
    DocsReportsUnlisted();
    DocsPrefixes();
    BackslashVanishes();
    PlainDocs();
    EscapesBelow(p, a, b, file);
  }

  lemma PlainDocs()
    ensures Plain("docs") && Plain("reports") && "docs"[0] !in {'t', 'w'}
  {
  }

  lemma BackslashVanishes()
    ensures Tail(Slashes("\\")) == []
  {
    assert Slashes("\\") == "/";
    RootOnly();
  }
}
