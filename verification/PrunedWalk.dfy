/**
A walk over a directory tree that does not enter pruned folders, for any two tests: which paths are
excluded, and which folders are pruned.
*/
module PrunedWalk {

  import Pairing

  type Test = seq<string> -> bool

  /** A directory: its files and its folders, each in the order of their sorted names. */
  datatype Directory = Directory(files: seq<string>, folders: seq<Entry>)

  datatype Entry = Entry(name: string, content: Directory)

  /** Every file below `d`, as the list of names on its path; the files of a directory come before its folders. */
  function AllFiles(d: Directory, base: seq<string>): seq<seq<string>>
    decreases d, 1
  {
    FilesHere(d.files, base) + AllInside(d.folders, base)
  }

  function FilesHere(files: seq<string>, base: seq<string>): seq<seq<string>> {
    seq(|files|, i requires 0 <= i < |files| => base + [files[i]])
  }

  function AllInside(folders: seq<Entry>, base: seq<string>): seq<seq<string>>
    decreases folders, 0
  {
    if folders == [] then []
    else AllFiles(folders[0].content, base + [folders[0].name]) + AllInside(folders[1..], base)
  }

  /** Some folder on the path, below the first `from` names, is pruned. */
  predicate Hidden(pruned: Test, path: seq<string>, from: nat) {
    exists k :: from < k < |path| && pruned(path[..k])
  }

  /** The plain filter. */
  function Kept(excluded: Test, paths: seq<seq<string>>): seq<seq<string>> {
    if paths == [] then []
    else (if excluded(paths[0]) then [] else [paths[0]]) + Kept(excluded, paths[1..])
  }

  /** What is left when pruned folders are not entered. */
  function Walked(excluded: Test, pruned: Test, paths: seq<seq<string>>, from: nat): seq<seq<string>> {
    if paths == [] then []
    else
      (if excluded(paths[0]) || Hidden(pruned, paths[0], from) then [] else [paths[0]])
      + Walked(excluded, pruned, paths[1..], from)
  }

  function Unpruned(pruned: Test, folders: seq<Entry>, base: seq<string>): (r: seq<Entry>)
    ensures forall e :: e in r ==> e in folders
  {
    if folders == [] then []
    else Unpruned(pruned, folders[..|folders| - 1], base)
         + if pruned(base + [folders[|folders| - 1].name]) then [] else [folders[|folders| - 1]]
  }

  lemma {:induction false} WalkedJoins(excluded: Test, pruned: Test, a: seq<seq<string>>, b: seq<seq<string>>,
      from: nat)
    ensures Walked(excluded, pruned, a + b, from) == Walked(excluded, pruned, a, from)
        + Walked(excluded, pruned, b, from)
    decreases |a|
  {
    if a == [] {
      assert a + b == b;
    } else {
      assert (a + b)[1..] == a[1..] + b;
      WalkedJoins(excluded, pruned, a[1..], b, from);
    }
  }

  lemma {:induction false} InsideJoins(a: seq<Entry>, b: seq<Entry>, base: seq<string>)
    ensures AllInside(a + b, base) == AllInside(a, base) + AllInside(b, base)
    decreases |a|
  {
    if a == [] {
      assert a + b == b;
    } else {
      assert (a + b)[1..] == a[1..] + b;
      InsideJoins(a[1..], b, base);
    }
  }

  predicate Below(path: seq<string>, base: seq<string>) { |base| < |path| && base <= path }

  lemma {:induction false} FilesAreBelow(d: Directory, base: seq<string>)
    ensures forall path :: path in AllFiles(d, base) ==> Below(path, base)
    decreases d, 1
  {
    InsideIsBelow(d.folders, base);
  }

  lemma {:induction false} InsideIsBelow(folders: seq<Entry>, base: seq<string>)
    ensures forall path :: path in AllInside(folders, base) ==> Below(path, base) && |path| > |base| + 1
    ensures forall path :: path in AllInside(folders, base) ==> exists e :: e in folders && path[|base|] == e.name
    decreases folders, 0
  {
    if folders != [] {
      FilesAreBelow(folders[0].content, base + [folders[0].name]);
      InsideIsBelow(folders[1..], base);
      assert folders[0] in folders;
      forall path | path in AllFiles(folders[0].content, base + [folders[0].name])
        ensures Below(path, base) && path[|base|] == folders[0].name
      {
        assert path[..|base| + 1] == base + [folders[0].name];
        assert path[..|base|] == path[..|base| + 1][..|base|] == base;
      }
    }
  }

  lemma {:induction false} HiddenBelow(pruned: Test, path: seq<string>, base: seq<string>, name: string)
    requires Below(path, base + [name])
    ensures Hidden(pruned, path, |base|) <==> pruned(base + [name]) || Hidden(pruned, path, |base| + 1)
  {
    assert path[..|base| + 1] == base + [name];
    if Hidden(pruned, path, |base|) {
      var k :| |base| < k < |path| && pruned(path[..k]);
      assert k == |base| + 1 || |base| + 1 < k;
    }
  }

  /** A folder that is pruned contributes nothing; one that is not is walked from its own level. */
  lemma {:induction false} WalkedBelow(excluded: Test, pruned: Test, paths: seq<seq<string>>, base: seq<string>,
      name: string)
    requires forall path :: path in paths ==> Below(path, base + [name])
    ensures Walked(excluded, pruned, paths, |base|) == if pruned(base + [name]) then []
        else Walked(excluded, pruned, paths, |base| + 1)
    decreases |paths|
  {
    if paths != [] {
      assert paths[0] in paths;
      HiddenBelow(pruned, paths[0], base, name);
      WalkedBelow(excluded, pruned, paths[1..], base, name);
    }
  }

  lemma {:induction false} WalkedFolder(excluded: Test, pruned: Test, e: Entry, base: seq<string>)
    ensures var inside := AllFiles(e.content, base + [e.name]);
            Walked(excluded, pruned, AllInside([e], base), |base|) == if pruned(base + [e.name]) then []
              else Walked(excluded, pruned, inside, |base| + 1)
  {
    var inside := AllFiles(e.content, base + [e.name]);
    assert [e][1..] == [] && AllInside([], base) == [];
    assert AllInside([e], base) == inside + [] == inside;
    FilesAreBelow(e.content, base + [e.name]);
    WalkedBelow(excluded, pruned, inside, base, e.name);
  }

  /** Dropping the pruned folders from a listing changes nothing in what is reached. */
  lemma {:induction false} PruningKeepsTheWalk(excluded: Test, pruned: Test, folders: seq<Entry>, base: seq<string>)
    ensures Walked(excluded, pruned, AllInside(folders, base), |base|)
        == Walked(excluded, pruned, AllInside(Unpruned(pruned, folders, base), base), |base|)
    decreases |folders|
  {
    if folders != [] {
      var front, e := folders[..|folders| - 1], folders[|folders| - 1];
      assert folders == front + [e];
      PruningKeepsTheWalk(excluded, pruned, front, base);
      WalkedOneMore(excluded, pruned, front, e, base);
      var stays := Unpruned(pruned, front, base);
      if pruned(base + [e.name]) {
        assert Unpruned(pruned, folders, base) == stays + [] == stays;
        assert Walked(excluded, pruned, AllInside(front, base), |base|) + []
          == Walked(excluded, pruned, AllInside(front, base), |base|);
      } else {
        assert Unpruned(pruned, folders, base) == stays + [e];
        WalkedOneMore(excluded, pruned, stays, e, base);
      }
    }
  }

  lemma {:induction false} WalkedOneMore(excluded: Test, pruned: Test, front: seq<Entry>, e: Entry, base: seq<string>)
    ensures Walked(excluded, pruned, AllInside(front + [e], base), |base|)
            == Walked(excluded, pruned, AllInside(front, base), |base|)
               + (if pruned(base + [e.name]) then []
                 else Walked(excluded, pruned, AllFiles(e.content, base + [e.name]), |base| + 1))
  {
    InsideJoins(front, [e], base);
    WalkedJoins(excluded, pruned, AllInside(front, base), AllInside([e], base), |base|);
    WalkedFolder(excluded, pruned, e, base);
  }

  lemma {:induction false} FileIsNotHidden(excluded: Test, pruned: Test, base: seq<string>, files: seq<string>, n: nat)
    requires n < |files|
    ensures Walked(excluded, pruned, FilesHere(files[..n + 1], base), |base|)
            == Walked(excluded, pruned, FilesHere(files[..n], base), |base|) + if excluded(base + [files[n]]) then []
              else [base + [files[n]]]
  {
    var path := base + [files[n]];
    assert FilesHere(files[..n + 1], base) == FilesHere(files[..n], base) + [path];
    WalkedJoins(excluded, pruned, FilesHere(files[..n], base), [path], |base|);
    assert [path][1..] == [];
    assert !Hidden(pruned, path, |base|);
  }

  /** The folders of a listing that stay in it. */
  method Prune(pruned: Test, folders: seq<Entry>, base: seq<string>) returns (kept: seq<Entry>)
    ensures kept == Unpruned(pruned, folders, base)
  {
    kept := [];
    for i := 0 to |folders|
      invariant kept == Unpruned(pruned, folders[..i], base)
    {
      assert folders[..i + 1][..i] == folders[..i];
      if !pruned(base + [folders[i].name]) {
        kept := kept + [folders[i]];
      }
    }
    assert folders[..|folders|] == folders;
  }

  lemma {:induction false} UnprunedIsNotPruned(pruned: Test, folders: seq<Entry>, base: seq<string>)
    ensures forall e :: e in Unpruned(pruned, folders, base) ==> !pruned(base + [e.name])
    decreases |folders|
  {
    if folders != [] {
      UnprunedIsNotPruned(pruned, folders[..|folders| - 1], base);
    }
  }

  /** The files of one directory that are not excluded. */
  method YieldFiles(excluded: Test, ghost pruned: Test, files: seq<string>, base: seq<string>)
    returns (yielded: seq<seq<string>>)
    ensures yielded == Walked(excluded, pruned, FilesHere(files, base), |base|)
  {
    yielded := [];
    for i := 0 to |files|
      invariant yielded == Walked(excluded, pruned, FilesHere(files[..i], base), |base|)
    {
      FileIsNotHidden(excluded, pruned, base, files, i);
      var path := base + [files[i]];
      if !excluded(path) {
        yielded := yielded + [path];
      }
    }
    assert files[..|files|] == files;
  }

  lemma {:induction false} NextFolder(excluded: Test, pruned: Test, folders: seq<Entry>, base: seq<string>, i: nat)
    requires i < |folders| && !pruned(base + [folders[i].name])
    ensures Walked(excluded, pruned, AllInside(folders[..i + 1], base), |base|)
            == Walked(excluded, pruned, AllInside(folders[..i], base), |base|)
               + Walked(excluded, pruned, AllFiles(folders[i].content, base + [folders[i].name]), |base| + 1)
  {
    assert folders[..i + 1] == folders[..i] + [folders[i]];
    WalkedOneMore(excluded, pruned, folders[..i], folders[i], base);
  }

  /** The walk: prune the listing, yield the files that are kept, go down into what is left of it. */
  method SourceFiles(excluded: Test, pruned: Test, d: Directory, base: seq<string>) returns (yielded: seq<seq<string>>)
    ensures yielded == Walked(excluded, pruned, AllFiles(d, base), |base|)
    decreases d, 1
  {
    var folders := Prune(pruned, d.folders, base);
    yielded := YieldFiles(excluded, pruned, d.files, base);
    UnprunedIsNotPruned(pruned, d.folders, base);
    var below := Descend(excluded, pruned, d, folders, base);
    yielded := yielded + below;
    PruningKeepsTheWalk(excluded, pruned, d.folders, base);
    WalkedJoins(excluded, pruned, FilesHere(d.files, base), AllInside(d.folders, base), |base|);
  }

  method Descend(excluded: Test, pruned: Test, ghost d: Directory, folders: seq<Entry>, base: seq<string>)
    returns (yielded: seq<seq<string>>)
    requires forall e :: e in folders ==> e in d.folders && !pruned(base + [e.name])
    ensures yielded == Walked(excluded, pruned, AllInside(folders, base), |base|)
    decreases d, 0
  {
    yielded := [];
    for i := 0 to |folders|
      invariant yielded == Walked(excluded, pruned, AllInside(folders[..i], base), |base|)
    {
      var e := folders[i];
      assert e in folders;
      NextFolder(excluded, pruned, folders, base, i);
      var below := SourceFiles(excluded, pruned, e.content, base + [e.name]);
      yielded := yielded + below;
    }
    assert folders[..|folders|] == folders;
  }

  // ---------- walk against filter ----------

  predicate NothingLost(excluded: Test, pruned: Test, paths: seq<seq<string>>) {
    forall path :: path in paths ==> excluded(path) || !Hidden(pruned, path, 0)
  }

  /** The walk yields no more than the filter, and the same exactly when no file the filter keeps is hidden. */
  lemma {:induction false} FiltersAgree(excluded: Test, pruned: Test, paths: seq<seq<string>>)
    ensures |Walked(excluded, pruned, paths, 0)| <= |Kept(excluded, paths)|
    ensures Walked(excluded, pruned, paths, 0) == Kept(excluded, paths) <==> NothingLost(excluded, pruned, paths)
    decreases |paths|
  {
    if paths != [] {
      var x, rest := paths[0], paths[1..];
      FiltersAgree(excluded, pruned, rest);
      var w, k := Walked(excluded, pruned, rest, 0), Kept(excluded, rest);
      assert paths == [x] + rest;
      assert NothingLost(excluded, pruned, paths)
        <==> (excluded(x) || !Hidden(pruned, x, 0)) && NothingLost(excluded, pruned, rest);
      if excluded(x) {
        assert [] + w == w && [] + k == k;
      } else if Hidden(pruned, x, 0) {
        assert |[] + w| < |[x] + k|;
      } else {
        assert ([x] + w)[1..] == w && ([x] + k)[1..] == k;
      }
    }
  }

  // ---------- each file once ----------

  function FolderNames(folders: seq<Entry>): seq<string> {
    seq(|folders|, i requires 0 <= i < |folders| => folders[i].name)
  }

  /** As in a file system: no directory lists a name twice. */
  predicate WellNamed(d: Directory)
    decreases d, 1
  {
    Pairing.NoDup(d.files) && Pairing.NoDup(FolderNames(d.folders)) && AllWellNamed(d.folders)
  }

  predicate AllWellNamed(folders: seq<Entry>)
    decreases folders, 0
  {
    folders == [] || (WellNamed(folders[0].content) && AllWellNamed(folders[1..]))
  }

  lemma NoDupJoins<T>(a: seq<T>, b: seq<T>)
    requires Pairing.NoDup(a) && Pairing.NoDup(b) && forall x :: x in a ==> x !in b
    ensures Pairing.NoDup(a + b)
  {
    forall i, j | 0 <= i < j < |a + b|
      ensures (a + b)[i] != (a + b)[j]
    {
      assert i < |a| <= j ==> a[i] in a && b[j - |a|] in b;
    }
  }

  lemma {:induction false} ListedOnce(d: Directory, base: seq<string>)
    requires WellNamed(d)
    ensures Pairing.NoDup(AllFiles(d, base))
    decreases d, 1
  {
    var here, inside := FilesHere(d.files, base), AllInside(d.folders, base);
    forall i, j | 0 <= i < j < |here|
      ensures here[i] != here[j]
    {
      assert here[i][|base|] == d.files[i] && here[j][|base|] == d.files[j];
    }
    InsideOnce(d.folders, base);
    InsideIsBelow(d.folders, base);
    forall path | path in here
      ensures path !in inside
    {
      assert |path| == |base| + 1;
    }
    NoDupJoins(here, inside);
  }

  lemma {:induction false} InsideOnce(folders: seq<Entry>, base: seq<string>)
    requires Pairing.NoDup(FolderNames(folders)) && AllWellNamed(folders)
    ensures Pairing.NoDup(AllInside(folders, base))
    decreases folders, 0
  {
    if folders != [] {
      var e, rest := folders[0], folders[1..];
      forall i, j | 0 <= i < j < |rest|
        ensures FolderNames(rest)[i] != FolderNames(rest)[j]
      {
        assert FolderNames(folders)[i + 1] != FolderNames(folders)[j + 1];
      }
      ListedOnce(e.content, base + [e.name]);
      InsideOnce(rest, base);
      FilesAreBelow(e.content, base + [e.name]);
      InsideIsBelow(rest, base);
      forall path | path in AllFiles(e.content, base + [e.name])
        ensures path !in AllInside(rest, base)
      {
        assert path[..|base| + 1][|base|] == e.name;
        forall i | 0 <= i < |rest|
          ensures rest[i].name != e.name
        {
          assert FolderNames(folders)[0] != FolderNames(folders)[i + 1];
        }
      }
      NoDupJoins(AllFiles(e.content, base + [e.name]), AllInside(rest, base));
    }
  }

  lemma {:induction false} WalkedFrom(excluded: Test, pruned: Test, paths: seq<seq<string>>, from: nat)
    ensures forall path :: path in Walked(excluded, pruned, paths, from)
                           <==> path in paths && !excluded(path) && !Hidden(pruned, path, from)
    ensures Pairing.NoDup(paths) ==> Pairing.NoDup(Walked(excluded, pruned, paths, from))
    decreases |paths|
  {
    if paths != [] {
      var rest := Walked(excluded, pruned, paths[1..], from);
      WalkedFrom(excluded, pruned, paths[1..], from);
      assert paths == [paths[0]] + paths[1..];
      if Pairing.NoDup(paths) {
        assert forall i :: 0 <= i < |paths[1..]| ==> paths[1..][i] == paths[i + 1];
        assert paths[0] !in paths[1..];
        NoDupJoins([paths[0]], rest);
      }
    }
  }

  predicate NoRepeats(paths: seq<seq<string>>) { Pairing.NoDup(paths) }

  /** The walk yields each file it reaches once: the ones not excluded and under no pruned folder. */
  lemma {:induction false} YieldedOnce(excluded: Test, pruned: Test, d: Directory)
    requires WellNamed(d)
    ensures var yielded := Walked(excluded, pruned, AllFiles(d, []), 0);
            NoRepeats(yielded)
            && forall path :: path in yielded <==>
              path in AllFiles(d, []) && !excluded(path)
              && !Hidden(pruned, path, 0)
  {
    ListedOnce(d, []);
    WalkedFrom(excluded, pruned, AllFiles(d, []), 0);
  }

  // ---------- what a tree holds ----------

  /** The names lead from this directory down to one of its files. */
  predicate Leads(d: Directory, names: seq<string>)
    decreases |names|
  {
    if |names| <= 1 then names != [] && names[0] in d.files
    else exists i :: 0 <= i < |d.folders| && d.folders[i].name == names[0] && Leads(d.folders[i].content, names[1..])
  }

  /** The listing has a path exactly if its names lead to a file. */
  lemma {:induction false} ListedAreThere(d: Directory, base: seq<string>, names: seq<string>)
    ensures base + names in AllFiles(d, base) <==> Leads(d, names)
    decreases d, 1
  {
    var path := base + names;
    assert forall i :: 0 <= i < |d.files| ==> (base + [d.files[i]])[|base|] == d.files[i];
    InsideAreThere(d.folders, base, names);
    if |names| == 1 {
      if names[0] in d.files {
        var i :| 0 <= i < |d.files| && d.files[i] == names[0];
        assert FilesHere(d.files, base)[i] == path;
      }
      assert path[|base|] == names[0];
    }
  }

  lemma {:induction false} InsideAreThere(folders: seq<Entry>, base: seq<string>, names: seq<string>)
    ensures base + names in AllInside(folders, base) <==>
            |names| > 1 && exists i :: 0 <= i < |folders| && folders[i].name == names[0]
                                       && Leads(folders[i].content, names[1..])
    decreases folders, 0
  {
    if folders != [] {
      var e, rest := folders[0], folders[1..];
      InsideAreThere(rest, base, names);
      FolderIsThere(e, base, names);
      assert forall i :: 0 <= i < |rest| ==> rest[i] == folders[i + 1];
      assert forall i :: 1 <= i < |folders| ==> folders[i] == rest[i - 1];
    }
  }

  lemma NotBelow(base: seq<string>, names: seq<string>, name: string)
    ensures Below(base + names, base + [name]) ==> |names| > 1 && names[0] == name
  {
    if Below(base + names, base + [name]) {
      assert (base + names)[|base|] == (base + [name])[|base|];
    }
  }

  lemma {:induction false} FolderIsThere(e: Entry, base: seq<string>, names: seq<string>)
    ensures base + names in AllFiles(e.content, base + [e.name]) <==>
            |names| > 1 && e.name == names[0] && Leads(e.content, names[1..])
    decreases e, 2
  {
    FilesAreBelow(e.content, base + [e.name]);
    if names != [] && names[0] == e.name {
      assert base + names == base + [e.name] + names[1..];
      ListedAreThere(e.content, base + [e.name], names[1..]);
    } else {
      NotBelow(base, names, e.name);
    }
  }

  /** A directory's own files come first, in their order, and then what is in its folders, one after the other. */
  lemma {:induction false} ListedInOrder(d: Directory, base: seq<string>)
    ensures |AllFiles(d, base)| >= |d.files|
    ensures forall i :: 0 <= i < |d.files| ==> AllFiles(d, base)[i] == base + [d.files[i]]
    ensures forall i :: |d.files| <= i < |AllFiles(d, base)| ==> |AllFiles(d, base)[i]| > |base| + 1
  {
    var inside := AllInside(d.folders, base);
    InsideIsBelow(d.folders, base);
    forall i | |d.files| <= i < |AllFiles(d, base)|
      ensures |AllFiles(d, base)[i]| > |base| + 1
    {
      assert AllFiles(d, base)[i] == inside[i - |d.files|] && inside[i - |d.files|] in inside;
    }
  }

  // ---------- a tree with one file ----------

  /** The tree that holds `a/b/file` and nothing else. */
  function Chain(a: string, b: string, file: string): Directory {
    Directory([], [Entry(a, Directory([], [Entry(b, Directory([file], []))]))])
  }

  lemma ChainHasOneFile(a: string, b: string, file: string)
    ensures AllFiles(Chain(a, b, file), []) == [[a, b, file]] && WellNamed(Chain(a, b, file))
  {
    var d := Chain(a, b, file);
    var outer := d.folders[0].content;
    var inner := outer.folders[0].content;
    assert d.folders[1..] == [] && outer.folders[1..] == [];
    assert [] + [a] == [a] && [a] + [b] == [a, b] && [a, b] + [file] == [a, b, file];
    assert FilesHere([file], [a, b]) == [[a, b, file]];
    assert AllFiles(inner, [a, b]) == [[a, b, file]];
    assert AllInside(outer.folders, [a]) == [[a, b, file]];
    assert AllFiles(outer, [a]) == [[a, b, file]];
    assert AllInside(d.folders, []) == [[a, b, file]];
    assert AllFiles(d, []) == FilesHere([], []) + AllInside(d.folders, []);
    assert WellNamed(inner) && AllWellNamed(outer.folders);
    assert WellNamed(outer) && AllWellNamed(d.folders);
  }
}
