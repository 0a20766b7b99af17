/** Copying local files into the connector output (src/decision_system/connectors/local_files.py). */
module LocalFiles {
  import opened Prelude
  import opened Decimal

  /** The names on the way from the root. */
  type Path = seq<string>

  datatype Entry = Directory | File(bytes: seq<int>)

  type Tree = map<Path, Entry>

  datatype Category = Documents | Datasets | Json | Other

  /** A file of the scan, and whether it is to be imported. */
  datatype Scanned = Scanned(path: Path, isImport: bool, category: Category)

  // ------------------------------------------------------------------
  // Names

  function NameOf(p: Path): string {
    if |p| == 0 then "" else p[|p| - 1]
  }

  function ParentOf(p: Path): Path {
    if |p| == 0 then p else p[..|p| - 1]
  }

  /** The name below a directory; an empty name stands for the directory itself. */
  function Below(dir: Path, name: string): Path {
    if |name| == 0 then dir else dir + [name]
  }

  function CategoryName(c: Category): string {
    match c
    case Documents => "documents"
    case Datasets => "datasets"
    case Json => "json"
    case Other => "other"
  }

  function NormalizeTarget(destRoot: Path, source: Path, sourceRoot: Path, category: Category): Path {
    var rel := if sourceRoot <= source then source[|sourceRoot|..] else Below([], NameOf(source));
    match category
    case Documents | Datasets => Below(destRoot + [CategoryName(category), "imported"], NameOf(rel))
    case Json => destRoot + ["imported_json"] + rel
    case Other => Below(destRoot + [CategoryName(category), "imported"], NameOf(source))
  }

  /** A target lies strictly below the output root. */
  lemma TargetStaysBelow(destRoot: Path, source: Path, sourceRoot: Path, category: Category)
    ensures var target := NormalizeTarget(destRoot, source, sourceRoot, category);
            destRoot <= ParentOf(target) && |target| > |destRoot|
  {
  }

  /** Where a file below the source root goes: JSON files keep their place below the root, all others are
      put together by category under their own names. */
  lemma TargetPlace(destRoot: Path, sourceRoot: Path, rel: Path, category: Category)
    requires |rel| > 0 && |rel[|rel| - 1]| > 0
    ensures NormalizeTarget(destRoot, sourceRoot + rel, sourceRoot, category) ==
            match category
            case Documents => destRoot + ["documents", "imported", rel[|rel| - 1]]
            case Datasets => destRoot + ["datasets", "imported", rel[|rel| - 1]]
            case Json => destRoot + ["imported_json"] + rel
            case Other => destRoot + ["other", "imported", rel[|rel| - 1]]
  {
    var name := rel[|rel| - 1];
    assert (sourceRoot + rel)[|sourceRoot|..] == rel;
    assert destRoot + [CategoryName(category), "imported"] + [name] == destRoot + [CategoryName(category), "imported", name];
  }

  /** The source root itself has no name below the root. */
  lemma RootPlace(destRoot: Path, sourceRoot: Path, category: Category)
    requires category != Other
    ensures NormalizeTarget(destRoot, sourceRoot, sourceRoot, category) ==
            if category == Json then destRoot + ["imported_json"] else destRoot + [CategoryName(category), "imported"]
  {
  }

  /** A file that is not below the source root goes under its own name. */
  lemma OutsidePlace(destRoot: Path, sourceRoot: Path, source: Path, category: Category)
    requires !(sourceRoot <= source) && |source| > 0 && |source[|source| - 1]| > 0
    ensures NormalizeTarget(destRoot, source, sourceRoot, category) ==
            if category == Json then destRoot + ["imported_json", source[|source| - 1]]
            else destRoot + [CategoryName(category), "imported", source[|source| - 1]]
  {
    var name := source[|source| - 1];
    assert destRoot + [CategoryName(category), "imported"] + [name] == destRoot + [CategoryName(category), "imported", name];
    assert destRoot + ["imported_json"] + ([] + [name]) == destRoot + ["imported_json", name];
  }

  /** Two files of one category are aimed at the same path if and only if they are the same file, for JSON
      files, or have the same name, for all others; files of two categories never are. */
  lemma SameTargetIff(destRoot: Path, sourceRoot: Path, a: Path, b: Path, c: Category, d: Category)
    requires |a| > 0 && |a[|a| - 1]| > 0 && |b| > 0 && |b[|b| - 1]| > 0
    ensures NormalizeTarget(destRoot, sourceRoot + a, sourceRoot, c) == NormalizeTarget(destRoot, sourceRoot + b, sourceRoot, d)
            <==> c == d && if c == Json then a == b else a[|a| - 1] == b[|b| - 1]
  {
    hide NormalizeTarget;
    var n := |destRoot|;
    var s, t := NormalizeTarget(destRoot, sourceRoot + a, sourceRoot, c), NormalizeTarget(destRoot, sourceRoot + b, sourceRoot, d);
    TargetPlace(destRoot, sourceRoot, a, c);
    TargetPlace(destRoot, sourceRoot, b, d);
    if s == t {
      assert s[n] == t[n];
      if c == Json {
        assert s[n + 1..] == a && t[n + 1..] == b;
      } else {
        assert s[n + 2] == t[n + 2];
      }
    }
  }

  /** A path with its dots taken literally: `.` stays, `..` goes up. */
  function Resolve(p: Path): Path {
    if |p| == 0 then p
    else
      var above, name := Resolve(p[..|p| - 1]), p[|p| - 1];
      if name == "." then above else if name == ".." then ParentOf(above) else above + [name]
  }

  /** A dot stays, and two dots undo one name. */
  lemma DotsResolve(p: Path, name: string)
    requires !IsDots(name)
    ensures Resolve(p + ["."]) == Resolve(p)
    ensures Resolve(p + [name] + [".."]) == Resolve(p)
    ensures Resolve(p + [name]) == Resolve(p) + [name]
  {
    assert (p + ["."])[..|p|] == p && (p + [name])[..|p|] == p && (p + [name] + [".."])[..|p| + 1] == p + [name];
  }

  predicate IsDots(name: string) { name == "." || name == ".." }

  lemma {:induction false} ResolvePlain(p: Path, q: Path)
    requires forall i :: 0 <= i < |q| ==> !IsDots(q[i])
    ensures Resolve(p + q) == Resolve(p) + q
  {
    if |q| == 0 {
      assert p + q == p;
    } else {
      var n := |q| - 1;
      assert (p + q)[..|p + q| - 1] == p + q[..n];
      ResolvePlain(p, q[..n]);
    }
  }

  /** Without symbolic links, and with plain names below the source root, a target stays below the output
      root also when it is resolved, so the check that would skip a file never does. */
  lemma TargetResolvesBelow(destRoot: Path, source: Path, sourceRoot: Path, category: Category)
    requires forall i :: 0 <= i < |source| && (i >= |sourceRoot| || !(sourceRoot <= source)) ==> !IsDots(source[i])
    requires sourceRoot <= source ==> |sourceRoot| < |source|
    ensures var target := NormalizeTarget(destRoot, source, sourceRoot, category);
            Resolve(destRoot) <= Resolve(target) && |Resolve(target)| > |Resolve(destRoot)|
  {
    hide Resolve;
    var target := NormalizeTarget(destRoot, source, sourceRoot, category);
    TargetStaysBelow(destRoot, source, sourceRoot, category);
    var rest := target[|destRoot|..];
    assert target == destRoot + rest;
    ResolvePlain(destRoot, rest);
  }

  /** Where the suffix of a name starts: at its last dot, unless that is the first or the last
      character of the name. */
  function SuffixStart(name: string): (i: nat)
    ensures i <= |name|
  {
    var i := LastDot(name);
    if 0 < i < |name| - 1 then i else |name|
  }

  function LastDot(name: string): (i: nat)
    ensures i <= |name| && (i == |name| <==> forall k :: 0 <= k < |name| ==> name[k] != '.')
    ensures i < |name| ==> name[i] == '.' && forall k :: i < k < |name| ==> name[k] != '.'
  {
    if name == "" then 0
    else if name[|name| - 1] == '.' then |name| - 1
    else
      var i := LastDot(name[..|name| - 1]);
      if i == |name| - 1 then |name| else i
  }

  /** The name with a counter between stem and suffix. */
  function Numbered(name: string, k: nat): string {
    name[..SuffixStart(name)] + "-" + Print(k) + name[SuffixStart(name)..]
  }

  /** Where the number goes: before the suffix, which starts at the last dot and is not the whole name,
      and at the end of a name that has no suffix. */
  lemma NumberedParts(stem: string, extension: string, k: nat)
    requires NoDot(extension)
    ensures |stem| > 0 && |extension| > 0 ==> Numbered(stem + "." + extension, k) == stem + "-" + Print(k) + "." + extension
    ensures Numbered(extension, k) == extension + "-" + Print(k)
    ensures Numbered("." + extension, k) == "." + extension + "-" + Print(k)
    ensures Numbered(stem + ".", k) == stem + ".-" + Print(k)
  {
    hide Print, SuffixStart, Numbered, LastDot, NoDot;
    DotAt(stem, extension);
    DotAt("", extension);
    assert NoDot("") by { NothingNoDot(); }
    DotAt(stem, "");
    assert "" + "." + extension == "." + extension && stem + "." + "" == stem + ".";
    if |stem| > 0 && |extension| > 0 {
      NumberedAt(stem, "." + extension, k);
      Dotted(stem, extension, k);
    }
    NumberedAt(extension, "", k);
    NumberedAt("." + extension, "", k);
    NumberedAt(stem + ".", "", k);
  }

  lemma Dotted(stem: string, extension: string, k: nat)
    ensures stem + ("." + extension) == stem + "." + extension
    ensures stem + "-" + Print(k) + ("." + extension) == stem + "-" + Print(k) + "." + extension
  {
    hide Print;
  }

  lemma NumberedAt(stem: string, suffix: string, k: nat)
    ensures SuffixStart(stem + suffix) == |stem| ==> Numbered(stem + suffix, k) == stem + "-" + Print(k) + suffix
    ensures suffix == "" ==> stem + suffix == stem && stem + "-" + Print(k) + suffix == stem + "-" + Print(k)
  {
    hide Print, SuffixStart;
    assert (stem + suffix)[..|stem|] == stem && (stem + suffix)[|stem|..] == suffix;
  }

  predicate NoDot(s: string) {
    forall i :: 0 <= i < |s| ==> s[i] != '.'
  }

  lemma DotAt(stem: string, extension: string)
    requires NoDot(extension)
    ensures SuffixStart(stem + "." + extension) == if |stem| > 0 && |extension| > 0 then |stem| else |stem| + 1 + |extension|
    ensures SuffixStart(extension) == |extension|
  {
    hide LastDot, NoDot;
    var name := stem + "." + extension;
    assert name[|stem|] == '.' && name[|stem| + 1..] == extension;
    LastDotIs(name, |stem|);
    NoLastDot(extension);
  }

  lemma LastDotIs(name: string, n: nat)
    requires n < |name| && name[n] == '.' && NoDot(name[n + 1..])
    ensures LastDot(name) == n
  {
    hide LastDot;
    forall k | n < k < |name| ensures name[k] != '.' {
      assert name[k] == name[n + 1..][k - n - 1];
    }
  }

  lemma NothingNoDot()
    ensures NoDot("")
  {
  }

  lemma NoLastDot(name: string)
    requires NoDot(name)
    ensures LastDot(name) == |name|
  {
    hide LastDot;
  }

  lemma NumberedInjective(name: string, j: nat, k: nat)
    requires Numbered(name, j) == Numbered(name, k)
    ensures j == k
  {
    hide SuffixStart, Print;
    var n := SuffixStart(name);
    var a, b := Numbered(name, j), Numbered(name, k);
    assert |Print(j)| == |Print(k)|;
    assert a[n + 1..n + 1 + |Print(j)|] == Print(j);
    assert b[n + 1..n + 1 + |Print(k)|] == Print(k);
    PrintInjective(j, k);
  }

  /** The k-th path that is tried for a target. */
  function Attempt(target: Path, k: nat): Path {
    if k == 0 then target else ParentOf(target) + [Numbered(NameOf(target), k)]
  }

  lemma AttemptsDiffer(target: Path, j: nat, k: nat)
    requires Attempt(target, j) == Attempt(target, k)
    ensures j == k
  {
    hide Numbered, SuffixStart, Print;
    var name, p := NameOf(target), ParentOf(target);
    NumberedLonger(name, j);
    NumberedLonger(name, k);
    if j > 0 && k > 0 {
      assert Attempt(target, j)[|p|] == Numbered(name, j);
      assert Attempt(target, k)[|p|] == Numbered(name, k);
      NumberedInjective(name, j, k);
    }
  }

  lemma NumberedLonger(name: string, k: nat)
    ensures |Numbered(name, k)| > |name|
  {
    hide SuffixStart, Print;
  }

  /** If the first `n` paths that are tried are all taken there are at least `n` entries. */
  lemma {:induction false} Pigeonhole(tree: Tree, target: Path, n: nat)
    requires forall j :: 0 <= j < n ==> Attempt(target, j) in tree
    ensures n <= |tree|
  {
    var tried := Tried(target, n);
    assert tried <= tree.Keys by {
      hide Attempt;
    }
    Fewer(tried, tree.Keys);
  }

  lemma {:induction false} Tried(target: Path, n: nat) returns (s: set<Path>)
    ensures |s| == n
    ensures forall p :: p in s ==> exists j :: 0 <= j < n && Attempt(target, j) == p
  {
    hide Attempt;
    s := {};
    if n > 0 {
      var before := Tried(target, n - 1);
      var p := Attempt(target, n - 1);
      if p in before {
        var j :| 0 <= j < n - 1 && Attempt(target, j) == p;
        AttemptsDiffer(target, j, n - 1);
      }
      s := before + {p};
    }
  }

  lemma {:induction false} Fewer<T>(a: set<T>, b: set<T>)
    requires a <= b
    ensures |a| <= |b|
  {
    if x :| x in a {
      Fewer(a - {x}, b - {x});
    }
  }

  /** The least number from which on the search for a free path stops. */
  ghost predicate IsFirstFree(tree: Tree, target: Path, k: nat) {
    Attempt(target, k) !in tree && forall j :: 0 <= j < k ==> Attempt(target, j) in tree
  }

  /** There is always one, no further than the number of existing entries. */
  lemma FirstFreeExists(tree: Tree, target: Path)
    ensures exists k: nat :: IsFirstFree(tree, target, k)
  {
    hide Attempt;
    var k := 0;
    while Attempt(target, k) in tree
      invariant forall j :: 0 <= j < k ==> Attempt(target, j) in tree
      decreases |tree| - k
    {
      Pigeonhole(tree, target, k + 1);
      k := k + 1;
    }
    assert IsFirstFree(tree, target, k);
  }

  ghost function FirstFree(tree: Tree, target: Path): (k: nat)
    ensures IsFirstFree(tree, target, k) && k <= |tree|
  {
    FirstFreeExists(tree, target);
    var k: nat :| IsFirstFree(tree, target, k);
    Pigeonhole(tree, target, k);
    k
  }

  // ------------------------------------------------------------------
  // An import run

  /** Making a directory and what is missing above it; it fails where a file is in the way. */
  function MakeDirs(tree: Tree, dir: Path): Option<Tree>
    decreases |dir|
  {
    if dir in tree then (if tree[dir].Directory? then Some(tree) else None)
    else if |dir| == 0 then None
    else
      var above := MakeDirs(tree, ParentOf(dir));
      if above.Some? then Some(above.value[dir := Directory]) else None
  }

  /** What an import has done: the tree, what it reports as imported, skipped and written, the paths
      that it really wrote, and whether it ended with an error. */
  datatype Import = Import(tree: Tree, imported: seq<Path>, skipped: seq<Path>, outputs: seq<Path>, landed: seq<Path>, raised: bool)

  ghost function ImportOne(r: Import, f: Scanned, destRoot: Path, sourceRoot: Path): Import {
    if r.raised then r
    else if f.path !in r.tree || !f.isImport then Import(r.tree, r.imported, r.skipped + [f.path], r.outputs, r.landed, false)
    else
      var target := NormalizeTarget(destRoot, f.path, sourceRoot, f.category);
      var made := MakeDirs(r.tree, ParentOf(target));
      if made.None? then Import(r.tree, r.imported, r.skipped, r.outputs, r.landed, true)
      else if r.tree[f.path].Directory? then Import(made.value, r.imported, r.skipped, r.outputs, r.landed, true)
      else
        var dst := Attempt(target, FirstFree(made.value, target));
        Import(made.value[dst := r.tree[f.path]], r.imported + [f.path], r.skipped, r.outputs + [target], r.landed + [dst], false)
  }

  ghost function ImportAll(tree: Tree, files: seq<Scanned>, destRoot: Path, sourceRoot: Path): Import {
    if files == [] then Import(tree, [], [], [], [], false)
    else ImportOne(ImportAll(tree, files[..|files| - 1], destRoot, sourceRoot), files[|files| - 1], destRoot, sourceRoot)
  }

  ghost predicate Extends(before: Tree, after: Tree) {
    forall p :: p in before ==> p in after && after[p] == before[p]
  }

  lemma {:induction false} MakeDirsAdds(tree: Tree, dir: Path)
    requires MakeDirs(tree, dir).Some?
    ensures var made := MakeDirs(tree, dir).value;
            && Extends(tree, made) && dir in made && made[dir].Directory?
            && forall p :: p in made && p !in tree ==> made[p].Directory? && |p| <= |dir|
    decreases |dir|
  {
    if dir !in tree {
      MakeDirsAdds(tree, ParentOf(dir));
    }
  }

  /** What has landed where: on new paths only, each on its own, with the bytes of its source, and
      in the directory of the path that is reported for it; all else that is new is a directory. */
  ghost predicate Accounted(start: Tree, tree: Tree, imported: seq<Path>, outputs: seq<Path>, landed: seq<Path>) {
    && |imported| == |outputs| == |landed|
    && NoDuplicates(landed)
    && (forall i :: 0 <= i < |landed| ==> SameFile(tree, imported[i], landed[i]) && landed[i] !in start)
    && (forall i :: 0 <= i < |landed| ==> ParentOf(landed[i]) == ParentOf(outputs[i]))
    && (forall p :: p in tree && p !in start ==> tree[p].Directory? || p in landed)
  }

  ghost predicate SameFile(tree: Tree, p: Path, q: Path) {
    p in tree && q in tree && tree[p].File? && tree[p] == tree[q]
  }

  lemma NewDirectories(start: Tree, tree: Tree, made: Tree, imported: seq<Path>, outputs: seq<Path>, landed: seq<Path>)
    requires Accounted(start, tree, imported, outputs, landed) && Extends(tree, made)
    requires forall p :: p in made && p !in tree ==> made[p].Directory?
    ensures Accounted(start, made, imported, outputs, landed)
  {
    hide ParentOf, NoDuplicates;
  }

  lemma Landing(start: Tree, tree: Tree, imported: seq<Path>, outputs: seq<Path>, landed: seq<Path>, src: Path, target: Path, dst: Path)
    requires Accounted(start, tree, imported, outputs, landed) && Extends(start, tree)
    requires src in tree && tree[src].File? && dst !in tree && ParentOf(dst) == ParentOf(target)
    ensures Extends(tree, tree[dst := tree[src]])
    ensures Accounted(start, tree[dst := tree[src]], imported + [src], outputs + [target], landed + [dst])
  {
    hide ParentOf;
    forall i | 0 <= i < |landed| ensures landed[i] != dst {
      assert SameFile(tree, imported[i], landed[i]);
    }
  }

  /** One file of the import. */
  lemma ImportOneKeeps(start: Tree, r: Import, f: Scanned, destRoot: Path, sourceRoot: Path)
    requires Extends(start, r.tree) && Accounted(start, r.tree, r.imported, r.outputs, r.landed)
    ensures var r' := ImportOne(r, f, destRoot, sourceRoot);
            Extends(r.tree, r'.tree) && Accounted(start, r'.tree, r'.imported, r'.outputs, r'.landed)
  {
    hide NormalizeTarget, MakeDirs, Attempt, Accounted, IsFirstFree, ParentOf;
    var target := NormalizeTarget(destRoot, f.path, sourceRoot, f.category);
    if !r.raised && f.path in r.tree && f.isImport && MakeDirs(r.tree, ParentOf(target)).Some? {
      var made := MakeDirs(r.tree, ParentOf(target)).value;
      MakeDirsAdds(r.tree, ParentOf(target));
      NewDirectories(start, r.tree, made, r.imported, r.outputs, r.landed);
      if r.tree[f.path].File? {
        var dst := FirstFreeFits(made, target);
        Landing(start, made, r.imported, r.outputs, r.landed, f.path, target, dst);
      }
    }
  }

  lemma FirstFreeFits(tree: Tree, target: Path) returns (dst: Path)
    ensures dst == Attempt(target, FirstFree(tree, target)) && dst !in tree && ParentOf(dst) == ParentOf(target)
  {
    hide Numbered;
    dst := Attempt(target, FirstFree(tree, target));
  }

  /** An import never changes or removes what was there before, and the files it brings in land on
      distinct new paths, each with the bytes of its source; everything else that is new is a
      directory. This holds also for an import that ends with an error. */
  lemma {:induction false} NothingIsOverwritten(tree: Tree, files: seq<Scanned>, destRoot: Path, sourceRoot: Path)
    ensures var r := ImportAll(tree, files, destRoot, sourceRoot);
            Extends(tree, r.tree) && Accounted(tree, r.tree, r.imported, r.outputs, r.landed)
  {
    assert Accounted(tree, tree, [], [], []);
    hide ImportOne, Accounted;
    if files != [] {
      var rest := files[..|files| - 1];
      NothingIsOverwritten(tree, rest, destRoot, sourceRoot);
      ImportOneKeeps(tree, ImportAll(tree, rest, destRoot, sourceRoot), files[|files| - 1], destRoot, sourceRoot);
    }
  }

  /** Every file is imported or skipped: one that was there from the start is imported exactly if it is to
      be, and nothing is imported that is not. */
  ghost predicate Sorted(tree: Tree, files: seq<Scanned>, imported: seq<Path>, skipped: seq<Path>) {
    && |imported| + |skipped| == |files|
    && (forall n :: 0 <= n < |files| && files[n].path in tree ==>
          if files[n].isImport then files[n].path in imported else files[n].path in skipped)
    && (forall p :: p in imported ==> IsToBe(files, p))
  }

  ghost predicate IsToBe(files: seq<Scanned>, p: Path) {
    exists n :: 0 <= n < |files| && files[n].path == p && files[n].isImport
  }

  lemma SortedNext(tree: Tree, files: seq<Scanned>, imported: seq<Path>, skipped: seq<Path>, f: Scanned, there: bool)
    requires Sorted(tree, files, imported, skipped) && (f.path in tree ==> there)
    ensures if there && f.isImport then Sorted(tree, files + [f], imported + [f.path], skipped)
            else Sorted(tree, files + [f], imported, skipped + [f.path])
  {
    var all := files + [f];
    assert all[|files|] == f;
    forall p | IsToBe(files, p) ensures IsToBe(all, p) {
      var n :| 0 <= n < |files| && files[n].path == p && files[n].isImport;
      assert all[n] == files[n];
    }
    assert f.isImport ==> IsToBe(all, f.path);
  }

  /** So it is for every import that does not end with an error. */
  lemma {:induction false} EachIsSorted(tree: Tree, files: seq<Scanned>, destRoot: Path, sourceRoot: Path)
    requires !ImportAll(tree, files, destRoot, sourceRoot).raised
    ensures var r := ImportAll(tree, files, destRoot, sourceRoot); Sorted(tree, files, r.imported, r.skipped)
  {
    hide ImportOne, Accounted, Sorted;
    if files == [] {
      NothingSorted(tree);
    } else {
      var n := |files| - 1;
      var r := ImportAll(tree, files[..n], destRoot, sourceRoot);
      OneIsSorted(r, files[n], destRoot, sourceRoot);
      EachIsSorted(tree, files[..n], destRoot, sourceRoot);
      NothingIsOverwritten(tree, files[..n], destRoot, sourceRoot);
      assert files == files[..n] + [files[n]];
      SortedNext(tree, files[..n], r.imported, r.skipped, files[n], files[n].path in r.tree);
    }
  }

  lemma NothingSorted(tree: Tree)
    ensures Sorted(tree, [], [], [])
  {
  }

  lemma OneIsSorted(r: Import, f: Scanned, destRoot: Path, sourceRoot: Path)
    requires !ImportOne(r, f, destRoot, sourceRoot).raised
    ensures !r.raised
    ensures var r' := ImportOne(r, f, destRoot, sourceRoot);
            if f.path in r.tree && f.isImport then r'.imported == r.imported + [f.path] && r'.skipped == r.skipped
            else r'.imported == r.imported && r'.skipped == r.skipped + [f.path]
  {
    hide NormalizeTarget, MakeDirs, Attempt, FirstFree;
  }

  // ------------------------------------------------------------------
  // What the job reports

  /** A reported path is where its file landed exactly when nothing had been there: neither before
      the import, nor from an earlier file of it, nor a directory that was made for one. */
  ghost predicate Told(start: Tree, tree: Tree, earlier: seq<Path>, output: Path, landed: Path) {
    && output in tree
    && (landed == output <==> output !in start && output !in earlier && tree[output].File?)
  }

  ghost predicate Reported(start: Tree, tree: Tree, outputs: seq<Path>, landed: seq<Path>)
    requires |outputs| == |landed|
  {
    forall i :: 0 <= i < |landed| ==> Told(start, tree, landed[..i], outputs[i], landed[i])
  }

  lemma ReportedExtends(start: Tree, tree: Tree, tree': Tree, outputs: seq<Path>, landed: seq<Path>)
    requires |outputs| == |landed| && Reported(start, tree, outputs, landed) && Extends(tree, tree')
    ensures Reported(start, tree', outputs, landed)
  {
    forall i | 0 <= i < |landed| ensures Told(start, tree', landed[..i], outputs[i], landed[i]) {
      assert Told(start, tree, landed[..i], outputs[i], landed[i]);
    }
  }

  lemma ReportedStep(start: Tree, tree: Tree, imported: seq<Path>, outputs: seq<Path>, landed: seq<Path>, src: Path, target: Path, dst: Path)
    requires Accounted(start, tree, imported, outputs, landed) && Extends(start, tree)
    requires |outputs| == |landed| && Reported(start, tree, outputs, landed)
    requires src in tree && tree[src].File? && dst !in tree && (dst == target <==> target !in tree)
    ensures Reported(start, tree[dst := tree[src]], outputs + [target], landed + [dst])
  {
    hide Told, Accounted;
    var landed', outputs', tree' := landed + [dst], outputs + [target], tree[dst := tree[src]];
    assert Extends(tree, tree');
    hide Extends;
    ReportedExtends(start, tree, tree', outputs, landed);
    ToldNew(start, tree, imported, outputs, landed, src, target, dst);
    forall i | 0 <= i < |landed'| ensures Told(start, tree', landed'[..i], outputs'[i], landed'[i]) {
      if i < |landed| {
        assert landed'[..i] == landed[..i];
        assert Told(start, tree', landed[..i], outputs[i], landed[i]);
      } else {
        assert landed'[..i] == landed;
      }
    }
  }

  lemma ToldNew(start: Tree, tree: Tree, imported: seq<Path>, outputs: seq<Path>, landed: seq<Path>, src: Path, target: Path, dst: Path)
    requires Accounted(start, tree, imported, outputs, landed) && Extends(start, tree)
    requires src in tree && tree[src].File? && dst !in tree && (dst == target <==> target !in tree)
    ensures Told(start, tree[dst := tree[src]], landed, target, dst)
  {
    hide ParentOf;
    if i :| 0 <= i < |landed| && landed[i] == target {
      assert SameFile(tree, imported[i], landed[i]);
    }
  }

  lemma ImportOneReports(start: Tree, r: Import, f: Scanned, destRoot: Path, sourceRoot: Path)
    requires Extends(start, r.tree) && Accounted(start, r.tree, r.imported, r.outputs, r.landed)
    requires |r.outputs| == |r.landed| && Reported(start, r.tree, r.outputs, r.landed)
    ensures var r' := ImportOne(r, f, destRoot, sourceRoot);
            |r'.outputs| == |r'.landed| && Reported(start, r'.tree, r'.outputs, r'.landed)
  {
    hide NormalizeTarget, MakeDirs, Attempt, Accounted, IsFirstFree, ParentOf, Reported;
    var target := NormalizeTarget(destRoot, f.path, sourceRoot, f.category);
    if !r.raised && f.path in r.tree && f.isImport && MakeDirs(r.tree, ParentOf(target)).Some? {
      var made := MakeDirs(r.tree, ParentOf(target)).value;
      MakeDirsAdds(r.tree, ParentOf(target));
      NewDirectories(start, r.tree, made, r.imported, r.outputs, r.landed);
      ReportedExtends(start, r.tree, made, r.outputs, r.landed);
      if r.tree[f.path].File? {
        var dst := FirstFreeFits(made, target);
        FirstFreeMoves(made, target);
        ReportedStep(start, made, r.imported, r.outputs, r.landed, f.path, target, dst);
      }
    }
  }

  lemma FirstFreeMoves(tree: Tree, target: Path)
    ensures Attempt(target, FirstFree(tree, target)) == target <==> target !in tree
  {
    hide Numbered;
    var k := FirstFree(tree, target);
    assert Attempt(target, 0) == target;
    if k > 0 && Attempt(target, k) == target {
      AttemptsDiffer(target, 0, k);
    }
  }

  lemma {:induction false} ReportedAlways(tree: Tree, files: seq<Scanned>, destRoot: Path, sourceRoot: Path)
    ensures var r := ImportAll(tree, files, destRoot, sourceRoot);
            |r.outputs| == |r.landed| && Reported(tree, r.tree, r.outputs, r.landed)
  {
    hide ImportOne, Accounted;
    if files != [] {
      var rest := files[..|files| - 1];
      ReportedAlways(tree, rest, destRoot, sourceRoot);
      NothingIsOverwritten(tree, rest, destRoot, sourceRoot);
      ImportOneReports(tree, ImportAll(tree, rest, destRoot, sourceRoot), files[|files| - 1], destRoot, sourceRoot);
    }
  }

  /** The job reports the path that was aimed at; it is the path of the copy exactly when nothing was
      there just before the copy. */
  lemma OutputPathIff(tree: Tree, files: seq<Scanned>, destRoot: Path, sourceRoot: Path, n: nat)
    requires n < |files|
    requires |ImportAll(tree, files[..n + 1], destRoot, sourceRoot).landed| > |ImportAll(tree, files[..n], destRoot, sourceRoot).landed|
    ensures var r, r' := ImportAll(tree, files[..n], destRoot, sourceRoot), ImportAll(tree, files[..n + 1], destRoot, sourceRoot);
            var target := NormalizeTarget(destRoot, files[n].path, sourceRoot, files[n].category);
            && |r'.outputs| == |r.outputs| + 1 && |r'.landed| == |r.landed| + 1 && r'.outputs[|r.outputs|] == target
            && (r'.landed[|r.landed|] == target <==> target !in r.tree)
  {
    hide NormalizeTarget, MakeDirs, Attempt, IsFirstFree;
    assert files[..n + 1][..n] == files[..n];
    var r := ImportAll(tree, files[..n], destRoot, sourceRoot);
    var target := NormalizeTarget(destRoot, files[n].path, sourceRoot, files[n].category);
    TargetStaysBelow(destRoot, files[n].path, sourceRoot, files[n].category);
    var made := MakeDirs(r.tree, ParentOf(target)).value;
    MakeDirsAdds(r.tree, ParentOf(target));
    FirstFreeMoves(made, target);
  }

  /** The same, as it shows in the end: the path was not there before the import, no earlier file of it
      landed there, and it has not become a directory. */
  lemma ReportedPathIff(tree: Tree, files: seq<Scanned>, destRoot: Path, sourceRoot: Path, i: nat)
    requires i < |ImportAll(tree, files, destRoot, sourceRoot).landed|
    ensures var r := ImportAll(tree, files, destRoot, sourceRoot);
            && |r.imported| == |r.outputs| == |r.landed| && r.outputs[i] in r.tree
            && (r.landed[i] == r.outputs[i] <==>
                r.outputs[i] !in tree && r.outputs[i] !in r.landed[..i] && r.tree[r.outputs[i]].File?)
  {
    hide ImportAll;
    var r := ImportAll(tree, files, destRoot, sourceRoot);
    NothingIsOverwritten(tree, files, destRoot, sourceRoot);
    ReportedAlways(tree, files, destRoot, sourceRoot);
    assert Told(tree, r.tree, r.landed[..i], r.outputs[i], r.landed[i]);
  }

  /** So a file that is imported twice is reported twice under one path, and one of the two copies is
      not there. */
  lemma ImportedTwiceExample(tree: Tree, f: Scanned, destRoot: Path, sourceRoot: Path)
    requires f.isImport && f.path in tree && tree[f.path].File?
    requires MakeDirs(tree, ParentOf(NormalizeTarget(destRoot, f.path, sourceRoot, f.category))).Some?
    ensures var r := ImportAll(tree, [f, f], destRoot, sourceRoot);
            && !r.raised && r.imported == [f.path, f.path]
            && |r.outputs| == 2 && |r.landed| == 2 && r.outputs[0] == r.outputs[1]
            && r.landed[0] != r.landed[1] && r.landed[1] != r.outputs[1]
  {
    hide NormalizeTarget, MakeDirs, Attempt, Accounted, IsFirstFree, ParentOf;
    assert [f, f][..1] == [f] && [f][..0] == [];
    var target := NormalizeTarget(destRoot, f.path, sourceRoot, f.category);
    var made := MakeDirs(tree, ParentOf(target)).value;
    MakeDirsAdds(tree, ParentOf(target));
    var dst := FirstFreeFits(made, target);
    var start := ImportAll(tree, [], destRoot, sourceRoot);
    var once := ImportOne(start, f, destRoot, sourceRoot);
    assert once == ImportAll(tree, [f], destRoot, sourceRoot);
    assert once.tree == made[dst := tree[f.path]] && dst != ParentOf(target);
    MakeDirsThere(once.tree, ParentOf(target));
    FirstFreeMoves(made, target);
    FirstFreeMoves(once.tree, target);
    var dst' := FirstFreeFits(once.tree, target);
    assert target in once.tree;
  }

  lemma MakeDirsThere(tree: Tree, dir: Path)
    requires dir in tree && tree[dir].Directory?
    ensures MakeDirs(tree, dir) == Some(tree)
  {
  }

  // ------------------------------------------------------------------
  // The copy loop

  lemma FirstFreeUnique(tree: Tree, target: Path, k: nat)
    requires IsFirstFree(tree, target, k)
    ensures k == FirstFree(tree, target)
  {
    hide Attempt;
    var m := FirstFree(tree, target);
    assert IsFirstFree(tree, target, m);
  }

  class FileSystem {
    var tree: Tree

    constructor (tree: Tree)
      ensures this.tree == tree
    {
      this.tree := tree;
    }

    method MakeDirectory(dir: Path) returns (ok: bool)
      modifies this
      ensures ok <==> MakeDirs(old(tree), dir).Some?
      ensures tree == if ok then MakeDirs(old(tree), dir).value else old(tree)
    {
      var made := MakeDirs(tree, dir);
      ok := made.Some?;
      if ok {
        tree := made.value;
      }
    }

    /** The library copy, which raises on a source that is no file and on a missing directory. */
    method Copy(src: Path, dst: Path) returns (ok: bool)
      modifies this
      ensures ok <==> src in old(tree) && old(tree)[src].File? && ParentOf(dst) in old(tree) && old(tree)[ParentOf(dst)].Directory?
      ensures tree == if ok then old(tree)[dst := old(tree)[src]] else old(tree)
    {
      ok := src in tree && tree[src].File? && ParentOf(dst) in tree && tree[ParentOf(dst)].Directory?;
      if ok {
        tree := tree[dst := tree[src]];
      }
    }

    /** Copies to the target, or to the first numbered path beside it that is free; the search ends
        after at most as many numbers as there are entries. */
    method CopySafe(src: Path, target: Path) returns (ok: bool, dst: Path, renamed: Option<string>)
      modifies this
      ensures dst == Attempt(target, FirstFree(old(tree), target)) && dst !in old(tree) && ParentOf(dst) == ParentOf(target)
      ensures ok <==> src in old(tree) && old(tree)[src].File? && ParentOf(target) in old(tree) && old(tree)[ParentOf(target)].Directory?
      ensures tree == if ok then old(tree)[dst := old(tree)[src]] else old(tree)
      ensures renamed == if target in old(tree) then Some(NameOf(dst)) else None
    {
      hide Print, SuffixStart;
      dst, renamed := target, None;
      ghost var k := 0;
      if dst in tree {
        var parent, name := ParentOf(dst), NameOf(dst);
        var stem, suffix := name[..SuffixStart(name)], name[SuffixStart(name)..];
        var counter := 1;
        while dst in tree
          invariant tree == old(tree) && counter == k + 1 && dst == Attempt(target, k)
          invariant forall j :: 0 <= j < k ==> Attempt(target, j) in tree
          decreases |tree| - k
        {
          Pigeonhole(tree, target, k + 1);
          dst := parent + [stem + "-" + Print(counter) + suffix];
          counter := counter + 1;
          k := k + 1;
        }
        renamed := Some(NameOf(dst));
      }
      FirstFreeUnique(tree, target, k);
      ghost var fit := FirstFreeFits(tree, target);
      ok := Copy(src, dst);
    }
  }

  /** The loop of `run_local_files_import` over the files of the scan. */
  method RunLocalFilesImport(fs: FileSystem, files: seq<Scanned>, destRoot: Path, sourceRoot: Path)
    returns (imported: seq<Path>, skipped: seq<Path>, outputs: seq<Path>, raised: bool, ghost landed: seq<Path>)
    modifies fs
    ensures Import(fs.tree, imported, skipped, outputs, landed, raised) == ImportAll(old(fs.tree), files, destRoot, sourceRoot)
  {
    hide NormalizeTarget, MakeDirs, Attempt, IsFirstFree, ParentOf;
    imported, skipped, outputs, raised, landed := [], [], [], false, [];
    for n := 0 to |files|
      invariant Import(fs.tree, imported, skipped, outputs, landed, raised) == ImportAll(old(fs.tree), files[..n], destRoot, sourceRoot)
      invariant !raised
    {
      var f := files[n];
      assert files[..n + 1][..n] == files[..n];
      if f.path !in fs.tree || !f.isImport {
        skipped := skipped + [f.path];
        continue;
      }
      var target := NormalizeTarget(destRoot, f.path, sourceRoot, f.category);
      ghost var before := fs.tree;
      var ok := fs.MakeDirectory(ParentOf(target));
      if ok {
        MakeDirsAdds(before, ParentOf(target));
        var dst, renamed;
        ok, dst, renamed := fs.CopySafe(f.path, target);
        if ok {
          imported, outputs, landed := imported + [f.path], outputs + [target], landed + [dst];
        }
      }
      if !ok {
        raised := true;
        RaisedStays(old(fs.tree), files, n + 1, destRoot, sourceRoot);
        return;
      }
    }
    assert files[..|files|] == files;
  }

  /** After an error nothing more happens. */
  lemma {:induction false} RaisedStays(tree: Tree, files: seq<Scanned>, n: nat, destRoot: Path, sourceRoot: Path)
    requires n <= |files| && ImportAll(tree, files[..n], destRoot, sourceRoot).raised
    ensures ImportAll(tree, files, destRoot, sourceRoot) == ImportAll(tree, files[..n], destRoot, sourceRoot)
  {
    if n < |files| {
      assert files[..|files| - 1][..n] == files[..n];
      RaisedStays(tree, files[..|files| - 1], n, destRoot, sourceRoot);
    } else {
      assert files[..n] == files;
    }
  }
}
