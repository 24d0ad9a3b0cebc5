/**
Which files the source export takes, told by the names on their paths: rule by rule, with prefixes, endings and
suffixes spelt out, and the path arithmetic by what it does to ordinary names.
*/
module SourceMeaning {

  import opened Basics
  import opened SourcePolicy
  import PrunedWalk

  // ---------- paths ----------

  predicate NoSlash(s: string) { forall i :: 0 <= i < |s| ==> s[i] != '/' }

  /** Splitting at the slashes undoes joining with them. */
  lemma {:induction false} SplitUndoesJoin(names: seq<string>)
    requires names != [] && forall i :: 0 <= i < |names| ==> NoSlash(names[i])
    ensures Split(Join(names)) == names
    decreases |names|
  {
    if |names| == 1 {
      SplitOne(names[0]);
    } else {
      SplitUndoesJoin(names[1..]);
      SplitAfter(names[0], Join(names[1..]), names[1..]);
      assert [names[0]] + names[1..] == names;
    }
  }

  lemma {:induction false} SplitAfter(first: string, rest: string, parts: seq<string>)
    requires NoSlash(first) && Split(rest) == parts
    ensures Split(first + "/" + rest) == [first] + parts
  {
    SplitJoins(first, rest);
    SplitOne(first);
  }

  lemma {:induction false} SplitOne(name: string)
    requires NoSlash(name)
    ensures Split(name) == [name]
    decreases |name|
  {
    if name != "" {
      SplitOne(name[1..]);
      assert [name[0]] + name[1..] == name;
    }
  }

  /** A name as file systems have them: not empty, not a dot, without slashes of either kind. */
  predicate Ordinary(name: string) {
    name != "" && name != "." && forall i :: 0 <= i < |name| ==> name[i] != '/' && name[i] != '\\'
  }

  predicate OrdinaryPath(path: seq<string>) { path != [] && forall i :: 0 <= i < |path| ==> Ordinary(path[i]) }

  lemma {:induction false} NothingDropped(names: seq<string>)
    requires forall i :: 0 <= i < |names| ==> names[i] != "" && names[i] != "."
    ensures Dropped(names) == names
    decreases |names|
  {
    if names != [] {
      NothingDropped(names[1..]);
    }
  }

  lemma {:induction false} SlashesUntouched(names: seq<string>)
    requires forall i :: 0 <= i < |names| ==> Ordinary(names[i])
    ensures Slashes(Join(names)) == Join(names)
    decreases |names|
  {
    if |names| == 1 {
      assert Slashes(names[0]) == names[0];
    } else if names != [] {
      SlashesUntouched(names[1..]);
      SlashesJoin(names[0], Join(names[1..]));
      assert Slashes(names[0]) == names[0];
      assert names[0] + "/" + Join(names[1..]) == Join(names);
    }
  }

  /** An ordinary path has no root, and its parts are its names. */
  lemma {:induction false} OrdinaryParts(path: seq<string>)
    requires OrdinaryPath(path)
    ensures var f := Slashes(Join(path)); f == Join(path) && Root(f) == "" && Tail(f) == path
  {
    SlashesUntouched(path);
    forall i | 0 <= i < |path|
      ensures NoSlash(path[i])
    {
      assert Ordinary(path[i]);
    }
    SplitUndoesJoin(path);
    NothingDropped(path);
    assert Ordinary(path[0]);
    assert Join(path)[0] == path[0][0];
  }

  /** The root a path starts with: none, one slash, or exactly two. */
  lemma RootMeans(s: string)
    ensures Root(s) == "" <==> s == "" || s[0] != '/'
    ensures Root(s) == "//" <==> |s| >= 2 && s[0] == '/' && s[1] == '/' && (|s| == 2 || s[2] != '/')
    ensures Root(s) in {"", "/", "//"}
  {
    if |s| >= 2 && s[0] == '/' && s[1] == '/' {
      var t := s[1..];
      assert Lead(s) == 1 + Lead(t) && Lead(t) == 1 + Lead(t[1..]);
      assert Lead(t[1..]) == 0 <==> |s| == 2 || s[2] != '/';
    } else if |s| >= 1 && s[0] == '/' {
      assert Lead(s) == 1 + Lead(s[1..]);
      assert Lead(s[1..]) == 0;
    }
  }

  // ---------- suffixes ----------

  /** The last dot is at `i`, neither first nor last in the name. */
  predicate SuffixAt(name: string, i: int) {
    0 < i < |name| - 1 && name[i] == '.' && forall j :: i < j < |name| ==> name[j] != '.'
  }

  ghost predicate IsSuffix(name: string, suffix: string) {
    if exists i :: SuffixAt(name, i) then exists i :: SuffixAt(name, i) && suffix == name[i..] else suffix == ""
  }

  lemma {:induction false} LastDotIs(s: string)
    ensures LastDot(s) == -1 <==> forall i :: 0 <= i < |s| ==> s[i] != '.'
    ensures LastDot(s) != -1 ==> 0 <= LastDot(s) < |s| && s[LastDot(s)] == '.'
    ensures forall j :: LastDot(s) < j < |s| ==> s[j] != '.'
    decreases |s|
  {
    if s != "" && s[|s| - 1] != '.' {
      LastDotIs(s[..|s| - 1]);
    }
  }

  lemma SuffixMeans(name: string)
    ensures IsSuffix(name, Suffix(name))
    ensures forall s :: IsSuffix(name, s) ==> s == Suffix(name)
  {
    LastDotIs(name);
    var i := LastDot(name);
    if 0 < i < |name| - 1 {
      assert SuffixAt(name, i);
    }
    forall j | SuffixAt(name, j)
      ensures j == i
    {
    }
  }

  // ---------- the rules, one by one ----------

  predicate Begins(s: string, with: string) { |with| <= |s| && forall i :: 0 <= i < |with| ==> s[i] == with[i] }

  predicate Ends(s: string, with: string) {
    |with| <= |s| && forall i :: 0 <= i < |with| ==> s[|s| - |with| + i] == with[i]
  }

  lemma BeginsIsPrefix(s: string, with: string)
    ensures Begins(s, with) <==> with <= s
  {
  }

  lemma EndsIsEnd(s: string, with: string)
    ensures Ends(s, with) <==> EndsWith(s, with)
  {
    if Ends(s, with) {
      assert s[|s| - |with|..] == with;
    }
    if EndsWith(s, with) {
      var tail := s[|s| - |with|..];
      assert forall i :: 0 <= i < |with| ==> s[|s| - |with| + i] == tail[i];
    }
  }

  /** None of the rules that speak of whole folders covers the parts of the path. */
  predicate InNoFolder(p: Policy, parts: seq<string>, whole: string) {
    && (forall i :: 0 <= i < |parts| ==> parts[i] !in p.rules.cache)
    && (parts != [] ==> parts[0] !in p.rules.privateRoots && !Begins(parts[0], "tmp_"))
    && (parts != [] && parts[0] == "web" ==> forall i :: 1 <= i < |parts| ==> !Begins(parts[i], ".sfc-check-"))
    && (forall x :: x in p.rules.prefixes ==> !Begins(whole, x))
    && !Begins(whole, "tools/fact_")
  }

  /** A sample of the project's own templates. */
  predicate OwnTemplate(whole: string) {
    Begins(whole, "src/gxw/templates/") && (Ends(whole, ".gxw") || Ends(whole, ".zip.xz"))
  }

  /** None of the rules that speak of single files meets it. */
  predicate NoFileRule(p: Policy, whole: string, name: string, suffix: string) {
    && name !in p.rules.notes
    && whole !in p.rules.reviews && whole !in p.rules.files
    && (Begins(name, ".env") ==> name == ".env.example")
    && suffix !in p.rules.generated
    && (suffix in p.rules.material ==> OwnTemplate(whole))
  }

  lemma NoFolderIsNoRule(p: Policy, parts: seq<string>, whole: string)
    ensures InNoFolder(p, parts, whole) <==> !PartsRule(p, parts) && !StartRule(p, whole)
  {
    var tmp, check, fact := "tmp_", ".sfc-check-", "tools/fact_";
    if parts != [] {
      BeginsIsPrefix(parts[0], tmp);
    }
    forall i | 0 <= i < |parts|
      ensures Begins(parts[i], check) <==> check <= parts[i]
    {
      BeginsIsPrefix(parts[i], check);
    }
    BeginsIsPrefix(whole, fact);
    forall x
      ensures Begins(whole, x) <==> x <= whole
    {
      BeginsIsPrefix(whole, x);
    }
  }

  lemma TemplateIsOwn(whole: string)
    ensures OwnTemplate(whole) <==> NativeTemplate(whole)
  {
    var folder, native, packed := "src/gxw/templates/", ".gxw", ".zip.xz";
    BeginsIsPrefix(whole, folder);
    EndsIsEnd(whole, native);
    EndsIsEnd(whole, packed);
  }

  /** No rule meets the path of this root and these names: the parts, the whole, the last name and its suffix. */
  ghost predicate RuleFree(p: Policy, root: string, tail: seq<string>) {
    var whole := p.fold(Posix(root, tail));
    && InNoFolder(p, Folded(p, Parts(root, tail)), whole)
    && exists suffix :: IsSuffix(NameOf(tail), suffix) && NoFileRule(p, whole, p.fold(NameOf(tail)), p.lower(suffix))
  }

  lemma FileRulesPlainly(p: Policy, whole: string, name: string, suffix: string)
    ensures NoFileRule(p, whole, name, suffix) <==>
              && name !in p.rules.notes && whole !in p.rules.reviews && whole !in p.rules.files
              && !(".env" <= name && name != ".env.example")
              && suffix !in p.rules.generated && !(suffix in p.rules.material && !NativeTemplate(whole))
  {
    var env := ".env";
    TemplateIsOwn(whole);
    BeginsIsPrefix(name, env);
  }

  lemma RulesPlainly(p: Policy, root: string, tail: seq<string>)
    ensures ReasonOf(p, root, tail).None? <==> RuleFree(p, root, tail)
  {
    var parts, whole, name := Folded(p, Parts(root, tail)), p.fold(Posix(root, tail)), p.fold(NameOf(tail));
    var suffix := Suffix(NameOf(tail));
    NoFolderIsNoRule(p, parts, whole);
    FileRulesPlainly(p, whole, name, p.lower(suffix));
    SuffixMeans(NameOf(tail));
    assert RuleFree(p, root, tail) <==> InNoFolder(p, parts, whole) && NoFileRule(p, whole, name, p.lower(suffix));
  }

  // ---------- the files of the export ----------

  function FoldedNames(p: Policy, path: seq<string>): seq<string> {
    seq(|path|, i requires 0 <= i < |path| => p.fold(path[i]))
  }

  /** No rule meets the ordinary path: its folded names, the folded whole, its last name and that name's suffix. */
  ghost predicate NoRule(p: Policy, path: seq<string>)
    requires path != []
  {
    var whole, last := p.fold(Join(path)), path[|path| - 1];
    && InNoFolder(p, FoldedNames(p, path), whole)
    && exists suffix :: IsSuffix(last, suffix) && NoFileRule(p, whole, p.fold(last), p.lower(suffix))
  }

  lemma FreeIsNoRule(p: Policy, path: seq<string>)
    requires path != []
    ensures RuleFree(p, "", path) <==> NoRule(p, path)
  {
    assert Posix("", path) == Join(path);
    assert Folded(p, Parts("", path)) == FoldedNames(p, path);
    assert NameOf(path) == path[|path| - 1];
  }

  lemma {:induction false} ExcludedByRule(p: Policy, path: seq<string>)
    ensures var f := Slashes(Join(path)); Excluded(p, path) <==> !RuleFree(p, Root(f), Tail(f))
  {
    var f := Slashes(Join(path));
    RulesPlainly(p, Root(f), Tail(f));
  }

  lemma OrdinaryIsKept(p: Policy, path: seq<string>)
    requires OrdinaryPath(path)
    ensures Excluded(p, path) <==> !NoRule(p, path)
  {
    OrdinaryParts(path);
    ExcludedByRule(p, path);
    FreeIsNoRule(p, path);
  }

  lemma {:induction false} OrdinaryStays(names: seq<string>)
    requires names != [] && forall i :: 0 <= i < |names| ==> Ordinary(names[i])
    ensures !Vanishes(names)
  {
    OrdinaryParts(names);
  }

  lemma OrdinaryNeverEscapes(p: Policy, path: seq<string>)
    requires OrdinaryPath(path)
    ensures !Escapes(p, path)
  {
    forall k: nat | 0 < k < |path|
      ensures !EscapesAt(p, path, k)
    {
      assert forall i :: 0 <= i < |path[k..]| ==> path[k..][i] == path[k + i];
      OrdinaryStays(path[k..]);
    }
  }

  /**
  The export of a tree: of the files with ordinary names on their paths it takes exactly those that no rule
  meets; of all files, none whose parts a folder rule or whose name a file rule meets.
  */
  lemma {:induction false} ExportMeans(p: Policy, d: PrunedWalk.Directory, yielded: seq<seq<string>>)
    requires forall path :: path in yielded <==>
               path in PrunedWalk.AllFiles(d, []) && !Excluded(p, path) && !Escapes(p, path)
    ensures forall path :: path in PrunedWalk.AllFiles(d, []) && OrdinaryPath(path) ==>
              (path in yielded <==> NoRule(p, path))
    ensures forall path :: path in yielded ==>
              var f := Slashes(Join(path)); RuleFree(p, Root(f), Tail(f))
    ensures forall path :: path in PrunedWalk.AllFiles(d, []) && !Escapes(p, path) && path !in yielded ==>
              var f := Slashes(Join(path)); !RuleFree(p, Root(f), Tail(f))
  {
    forall path | path in PrunedWalk.AllFiles(d, []) && OrdinaryPath(path)
      ensures path in yielded <==> NoRule(p, path)
    {
      OrdinaryIsKept(p, path);
      OrdinaryNeverEscapes(p, path);
    }
    forall path
      ensures var f := Slashes(Join(path)); Excluded(p, path) <==> !RuleFree(p, Root(f), Tail(f))
    {
      ExcludedByRule(p, path);
    }
  }
}
