/**
 The check that a migration pull request contains every migration of the base branch
 (scripts/check_migration_order.py:21, 34-72), and what it is for: whole histories of pull requests that
 leave one chain of migrations per app. A tree maps paths to files; a migration names its parent.
 */
module MigrationOrder {
  import opened Text

  type Path = string

  datatype File = File(parent: Option<Path>, text: string)

  type Tree = map<Path, File>

  function At(tree: Tree, p: Path): Option<File> {
    if p in tree then Some(tree[p]) else None
  }

  // ----- which files are migrations

  function Split(p: Path): (parts: seq<string>)
    ensures parts != []
  {
    if p == "" then [""]
    else
      var rest := Split(p[1..]);
      if p[0] == '/' then [""] + rest else [[p[0]] + rest[0]] + rest[1..]
  }

  predicate NumberedPython(name: string) {
    && |name| >= 9
    && (forall i :: 0 <= i < 4 ==> '0' <= name[i] <= '9')
    && name[4] == '_'
    && name[|name| - 3..] == ".py"
  }

  /** MIGRATION_RE */
  predicate IsMigration(p: Path) {
    var parts := Split(p);
    |parts| == 4 && parts[0] == "src" && parts[1] != "" && parts[2] == "migrations" && NumberedPython(parts[3])
  }

  function AppOf(p: Path): string
    requires IsMigration(p)
  {
    Split(p)[1]
  }

  predicate InApp(p: Path, app: string) {
    IsMigration(p) && AppOf(p) == app
  }

  /** The path of a migration: four digits, an underscore and a name in the folder of an app. */
  ghost predicate IsPathIn(p: Path, app: string) {
    app != "" && '/' !in app && exists file, digits, name ::
      NumberedAs(file, digits, name) && p == "src" + ("/" + (app + ("/" + ("migrations" + ("/" + file)))))
  }

  lemma {:induction false} SplitPart(part: string, rest: string)
    requires '/' !in part
    ensures Split(part) == [part]
    ensures Split(part + ("/" + rest)) == [part] + Split(rest)
  {
    if part == "" {
      assert part + ("/" + rest) == "/" + rest;
      assert ("/" + rest)[1..] == rest;
    } else {
      SplitPart(part[1..], rest);
      assert (part + ("/" + rest))[1..] == part[1..] + ("/" + rest);
      assert part == [part[0]] + part[1..];
    }
  }

  lemma {:induction false} SplitWas(p: Path) returns (rest: string)
    ensures '/' !in Split(p)[0]
    ensures |Split(p)| == 1 ==> p == Split(p)[0]
    ensures |Split(p)| > 1 ==> p == Split(p)[0] + ("/" + rest) && Split(rest) == Split(p)[1..]
  {
    if p == "" {
      rest := "";
    } else {
      assert p == [p[0]] + p[1..];
      if p[0] == '/' {
        rest := p[1..];
        assert p == "" + ("/" + rest);
      } else {
        rest := SplitWas(p[1..]);
        assert |Split(p)| > 1 ==> p == ([p[0]] + Split(p[1..])[0]) + ("/" + rest);
      }
    }
  }

  ghost predicate NumberedAs(file: string, digits: string, name: string) {
    && |digits| == 4 && (forall c :: c in digits ==> '0' <= c <= '9')
    && name != "" && '/' !in name && file == digits + "_" + name + ".py"
  }

  lemma NumberedWas(file: string) returns (digits: string, name: string)
    requires '/' !in file && NumberedPython(file)
    ensures NumberedAs(file, digits, name)
  {
    digits, name := file[..4], file[5..|file| - 3];
    assert forall c :: c in digits ==> '0' <= c <= '9';
    assert file == digits + "_" + name + ".py";
  }

  lemma NumberedIff(file: string)
    requires '/' !in file
    ensures NumberedPython(file) <==> exists digits, name :: NumberedAs(file, digits, name)
  {
    hide NumberedPython;
    if NumberedPython(file) {
      var digits, name := NumberedWas(file);
    }
    if digits, name :| NumberedAs(file, digits, name) {
      IsNumbered(digits, name);
    }
  }

  lemma IsNumbered(digits: string, name: string)
    requires |digits| == 4 && name != "" && forall c :: c in digits ==> '0' <= c <= '9'
    ensures NumberedPython(digits + "_" + name + ".py")
  {
    var file := digits + "_" + name + ".py";
    assert forall i :: 0 <= i < 4 ==> file[i] == digits[i] && digits[i] in digits;
    assert file[|file| - 3..] == ".py";
  }

  lemma FourParts(a: string, b: string, c: string, d: string)
    requires '/' !in a && '/' !in b && '/' !in c && '/' !in d
    ensures Split(a + ("/" + (b + ("/" + (c + ("/" + d)))))) == [a, b, c, d]
  {
    hide Split;
    SplitPart(a, b + ("/" + (c + ("/" + d))));
    SplitPart(b, c + ("/" + d));
    SplitPart(c, d);
    SplitPart(d, "");
  }

  lemma FromFourParts(p: Path)
    requires |Split(p)| == 4
    ensures var parts := Split(p);
      && p == parts[0] + ("/" + (parts[1] + ("/" + (parts[2] + ("/" + parts[3])))))
      && '/' !in parts[0] && '/' !in parts[1] && '/' !in parts[2] && '/' !in parts[3]
  {
    hide Split;
    var second := SplitWas(p);
    var third := SplitWas(second);
    var fourth := SplitWas(third);
    var end := SplitWas(fourth);
  }

  /** Which paths are migrations, and of which app. */
  lemma MigrationIff(p: Path, app: string)
    ensures InApp(p, app) <==> IsPathIn(p, app)
  {
    hide Split, NumberedPython;
    if InApp(p, app) {
      FromFourParts(p);
      NumberedIff(Split(p)[3]);
    }
    if IsPathIn(p, app) {
      var file, digits, name :|
        NumberedAs(file, digits, name) && p == "src" + ("/" + (app + ("/" + ("migrations" + ("/" + file)))));
      NoSlash(file, digits, name);
      FourParts("src", app, "migrations", file);
      NumberedIff(file);
    }
  }

  lemma NoSlash(file: string, digits: string, name: string)
    requires NumberedAs(file, digits, name)
    ensures '/' !in file
  {
  }

  // ----- the check

  /** Old names of renamed files with their new ones, as git pairs them; only the new names are listed. */
  type Renames = map<Path, Path>

  ghost predicate IsRenaming(mergeBase: Tree, head: Tree, renames: Renames) {
    forall p :: p in renames ==>
      p in mergeBase && p !in head && renames[p] in head && renames[p] !in mergeBase
  }

  /** `git diff --name-only` */
  ghost predicate ChangedByPr(mergeBase: Tree, head: Tree, renames: Renames, p: Path) {
    IsMigration(p) && At(mergeBase, p) != At(head, p) && p !in renames
  }

  /** `git diff --name-only --diff-filter=AR`: added files and new names, but no deletions and no edits. */
  ghost predicate GainedByBase(mergeBase: Tree, base: Tree, p: Path) {
    IsMigration(p) && p in base && p !in mergeBase
  }

  /** Exit code 0. */
  ghost predicate Passes(mergeBase: Tree, head: Tree, base: Tree, renames: Renames) {
    || (forall p :: !ChangedByPr(mergeBase, head, renames, p))
    || (forall p :: !GainedByBase(mergeBase, base, p))
  }

  /** The branch does nothing to migrations but move some of them to where they are none. */
  ghost predicate OnlyMovesAway(mergeBase: Tree, head: Tree, renames: Renames) {
    forall p :: IsMigration(p) && At(mergeBase, p) != At(head, p) ==> p in renames && !IsMigration(renames[p])
  }

  /** Rename detection changes the outcome for such branches only. */
  lemma RenamesHideOnlyMoves(mergeBase: Tree, head: Tree, base: Tree, renames: Renames)
    requires IsRenaming(mergeBase, head, renames)
    ensures Passes(mergeBase, head, base, renames)
       <==> Passes(mergeBase, head, base, map[]) || OnlyMovesAway(mergeBase, head, renames)
  {
    hide IsMigration;
    if forall p :: !ChangedByPr(mergeBase, head, renames, p) {
      forall p | IsMigration(p) && At(mergeBase, p) != At(head, p) ensures p in renames && !IsMigration(renames[p]) {
        assert !ChangedByPr(mergeBase, head, renames, p);
        assert !ChangedByPr(mergeBase, head, renames, renames[p]);
      }
    }
    forall p | ChangedByPr(mergeBase, head, renames, p) ensures ChangedByPr(mergeBase, head, map[], p) {
    }
  }

  // ----- merging

  /**
   A three-way merge: a path that only one side changed is taken from that side. What becomes of a path that
   both changed differently is left open, because the text may merge or somebody may resolve the conflict.
   */
  ghost predicate IsMerge(mergeBase: Tree, head: Tree, base: Tree, merged: Tree) {
    forall p :: MergedAt(At(mergeBase, p), At(head, p), At(base, p), At(merged, p))
  }

  predicate MergedAt(was: Option<File>, mine: Option<File>, theirs: Option<File>, merged: Option<File>) {
    && (mine == was ==> merged == theirs)
    && (theirs == was || theirs == mine ==> merged == mine)
  }

  /** Any two sides can be merged, for instance by preferring the branch where both changed a path. */
  lemma MergeExists(mergeBase: Tree, head: Tree, base: Tree)
    ensures exists merged ::
              && IsMerge(mergeBase, head, base, merged)
              && forall p :: At(head, p) != At(mergeBase, p) ==> At(merged, p) == At(head, p)
  {
    var merged := map p |
      p in head.Keys + base.Keys && (if At(head, p) == At(mergeBase, p) then p in base else p in head) ::
        if At(head, p) == At(mergeBase, p) then base[p] else head[p];
    forall p
      ensures At(merged, p) == if At(head, p) == At(mergeBase, p) then At(base, p) else At(head, p)
    {
    }
    assert IsMerge(mergeBase, head, base, merged);
  }

  ghost predicate SameMigrations(a: Tree, b: Tree) {
    forall p :: IsMigration(p) ==> At(a, p) == At(b, p)
  }

  /** Every migration of `a` is in `b`, unchanged. */
  ghost predicate Kept(a: Tree, b: Tree) {
    forall p :: IsMigration(p) && p in a ==> At(b, p) == At(a, p)
  }

  /** No migration leaves its folder. */
  ghost predicate MovesStay(renames: Renames) {
    forall p :: p in renames && IsMigration(p) ==> IsMigration(renames[p])
  }

  /**
   What the check is for: on a base that only gained migrations, a merge that passes has the migrations of one of
   its two sides, never a mixture.
   */
  lemma PassingMergeTakesOneSide(mergeBase: Tree, head: Tree, base: Tree, merged: Tree, renames: Renames)
    requires Kept(mergeBase, base) && IsRenaming(mergeBase, head, renames) && MovesStay(renames)
    requires Passes(mergeBase, head, base, renames) && IsMerge(mergeBase, head, base, merged)
    ensures if SameMigrations(mergeBase, head) then SameMigrations(merged, base) else SameMigrations(merged, head)
  {
    hide IsMigration;
    if SameMigrations(mergeBase, head) {
      forall p | IsMigration(p) ensures At(merged, p) == At(base, p) {
        assert MergedAt(At(mergeBase, p), At(head, p), At(base, p), At(merged, p));
      }
    } else {
      RenamesHideOnlyMoves(mergeBase, head, base, renames);
      var c :| IsMigration(c) && At(mergeBase, c) != At(head, c);
      assert ChangedByPr(mergeBase, head, map[], c);
      forall p | IsMigration(p) ensures At(merged, p) == At(head, p) {
        assert !GainedByBase(mergeBase, base, p);
        assert MergedAt(At(mergeBase, p), At(head, p), At(base, p), At(merged, p));
      }
    }
  }

  /** A merge of a branch that contains the base is the branch, and passes whatever the branch does. */
  lemma UpToDateMerge(base: Tree, head: Tree, merged: Tree, renames: Renames)
    ensures Passes(base, head, base, renames)
    ensures IsMerge(base, head, base, merged) <==> merged == head
  {
    forall p ensures MergedAt(At(base, p), At(head, p), At(base, p), At(merged, p)) <==> At(merged, p) == At(head, p) {
    }
    if forall p :: At(merged, p) == At(head, p) {
      assert forall p :: (p in merged <==> p in head) && (p in head ==> merged[p] == head[p]) by {
        forall p ensures (p in merged <==> p in head) && (p in head ==> merged[p] == head[p]) {
          assert At(merged, p) == At(head, p);
        }
      }
    }
  }

  // ----- chains

  /** The migrations of the app in an order in which each is the parent of the next. */
  ghost predicate IsChain(tree: Tree, app: string, order: seq<Path>) {
    && (forall p :: p in order <==> p in tree && InApp(p, app))
    && (forall i, j :: 0 <= i < j < |order| ==> order[i] != order[j])
    && (forall i :: 0 <= i < |order| ==> Follows(tree, order, i))
  }

  ghost predicate Follows(tree: Tree, order: seq<Path>, i: nat)
    requires i < |order|
  {
    order[i] in tree && tree[order[i]].parent == if i == 0 then None else Some(order[i - 1])
  }

  ghost predicate Linear(tree: Tree) {
    forall app :: HasChain(tree, app)
  }

  ghost predicate HasChain(tree: Tree, app: string) {
    exists order :: IsChain(tree, app, order)
  }

  predicate IsLeaf(tree: Tree, p: Path) {
    p in tree && forall q :: q in tree && IsMigration(q) ==> tree[q].parent != Some(p)
  }

  /** In a chain only the last migration is a leaf, and parents are not shared. */
  lemma ChainHasOneLeaf(tree: Tree, app: string, order: seq<Path>, i: nat, j: nat)
    requires IsChain(tree, app, order) && i < |order| && j < |order|
    ensures IsLeaf(tree, order[i]) ==> i == |order| - 1
    ensures tree[order[i]].parent == tree[order[j]].parent ==> i == j
  {
    hide AppOf;
    assert Follows(tree, order, i) && Follows(tree, order, j);
    if i < |order| - 1 {
      assert Follows(tree, order, i + 1);
      assert order[i + 1] in order;
    }
  }

  /** One leaf for each app that has migrations, and no two migrations of an app with the same parent. */
  lemma LinearHasOneLeaf(tree: Tree, app: string, p: Path, q: Path)
    requires Linear(tree) && p in tree && q in tree && InApp(p, app) && InApp(q, app)
    ensures exists leaf :: InApp(leaf, app) && IsLeaf(tree, leaf)
    ensures IsLeaf(tree, p) && IsLeaf(tree, q) ==> p == q
    ensures tree[p].parent == tree[q].parent ==> p == q
  {
    hide IsMigration, AppOf, IsLeaf;
    assert HasChain(tree, app);
    var order :| IsChain(tree, app, order);
    var i :| 0 <= i < |order| && order[i] == p;
    var j :| 0 <= j < |order| && order[j] == q;
    LastIsLeaf(tree, app, order);
    assert order[|order| - 1] in order;
    ChainHasOneLeaf(tree, app, order, i, j);
    ChainHasOneLeaf(tree, app, order, j, i);
  }

  /** The parent of a migration is in the same chain, and not its last element. */
  lemma ParentIsBefore(tree: Tree, app: string, order: seq<Path>, q: Path)
    requires IsChain(tree, app, order) && q in order
    ensures tree[q].parent.Some? ==> tree[q].parent.value in order && tree[q].parent.value != order[|order| - 1]
  {
    hide IsMigration, AppOf;
    var k :| 0 <= k < |order| && order[k] == q;
    assert Follows(tree, order, k);
  }

  lemma LastIsLeaf(tree: Tree, app: string, order: seq<Path>)
    requires Linear(tree) && IsChain(tree, app, order) && order != []
    ensures IsLeaf(tree, order[|order| - 1])
  {
    hide AppOf;
    var leaf := order[|order| - 1];
    assert leaf in order;
    forall q | q in tree && IsMigration(q) ensures tree[q].parent != Some(leaf) {
      assert HasChain(tree, AppOf(q));
      var chain :| IsChain(tree, AppOf(q), chain);
      ParentIsBefore(tree, AppOf(q), chain, q);
      if AppOf(q) == app {
        ParentIsBefore(tree, app, order, q);
      }
    }
  }

  lemma SameChains(a: Tree, b: Tree)
    requires Linear(a) && SameMigrations(a, b)
    ensures Linear(b)
  {
    hide AppOf;
    forall app ensures HasChain(b, app) {
      assert HasChain(a, app);
      var order :| IsChain(a, app, order);
      forall p ensures p in order <==> p in b && InApp(p, app) {
        assert IsMigration(p) ==> At(a, p) == At(b, p);
      }
      forall i | 0 <= i < |order| ensures Follows(b, order, i) {
        assert order[i] in order && At(a, order[i]) == At(b, order[i]);
        assert Follows(a, order, i);
      }
      assert IsChain(b, app, order);
    }
  }

  // ----- what a passing merge does to the chains

  /** Up to date, or behind a base that only gained migrations, with no migration moved out of its folder. */
  ghost predicate Covered(mergeBase: Tree, base: Tree, renames: Renames) {
    mergeBase == base || (Kept(mergeBase, base) && MovesStay(renames))
  }

  /** The branch leaves the migrations alone, or its own tree has one chain per app. */
  ghost predicate Tested(mergeBase: Tree, head: Tree) {
    SameMigrations(mergeBase, head) || Linear(head)
  }

  /**
   Exactly when a passing merge keeps one chain per app. The check alone does not: the tree of the branch that
   passed has to be tested, for an up-to-date branch as for one behind.
   */
  lemma PassingMergeKeepsChainsIff(mergeBase: Tree, head: Tree, base: Tree, merged: Tree, renames: Renames)
    requires Linear(base) && Covered(mergeBase, base, renames) && IsRenaming(mergeBase, head, renames)
    requires Passes(mergeBase, head, base, renames) && IsMerge(mergeBase, head, base, merged)
    ensures Linear(merged) <==> Tested(mergeBase, head)
  {
    hide Linear, IsMerge, Passes, IsMigration;
    if mergeBase == base {
      UpToDateMerge(base, head, merged, renames);
      if SameMigrations(base, head) {
        SameChains(base, head);
      }
    } else {
      PassingMergeTakesOneSide(mergeBase, head, base, merged, renames);
      if SameMigrations(mergeBase, head) {
        SameIsSymmetric(merged, base);
        SameChains(base, merged);
      } else {
        SameIsSymmetric(merged, head);
        if Linear(head) {
          SameChains(head, merged);
        }
        if Linear(merged) {
          SameChains(merged, head);
        }
      }
    }
  }

  lemma SameIsSymmetric(a: Tree, b: Tree)
    requires SameMigrations(a, b)
    ensures SameMigrations(b, a)
  {
  }

  function ParentFor(order: seq<Path>): Option<Path> {
    if order == [] then None else Some(order[|order| - 1])
  }

  lemma ExtendChain(head: Tree, path: Path, order: seq<Path>, text: string)
    requires IsMigration(path) && path !in head && IsChain(head, AppOf(path), order)
    ensures IsChain(head[path := File(ParentFor(order), text)], AppOf(path), order + [path])
  {
    hide IsMigration, AppOf;
    var next, longer := head[path := File(ParentFor(order), text)], order + [path];
    assert forall p :: p in longer <==> p in order || p == path;
    forall i | 0 <= i < |longer| ensures Follows(next, longer, i) {
      if i < |order| {
        assert order[i] in order && Follows(head, order, i);
      }
    }
  }

  lemma OtherChain(head: Tree, path: Path, file: File, app: string, order: seq<Path>)
    requires IsMigration(path) && path !in head && app != AppOf(path) && IsChain(head, app, order)
    ensures IsChain(head[path := file], app, order)
  {
    hide IsMigration, AppOf;
    var next := head[path := file];
    forall i | 0 <= i < |order| ensures Follows(next, order, i) {
      assert order[i] in order && Follows(head, order, i);
    }
  }

  /** A migration that extends the leaf its branch sees keeps the branch in order. */
  lemma AddKeepsLinear(head: Tree, path: Path, order: seq<Path>, text: string)
    requires Linear(head) && IsMigration(path) && path !in head && IsChain(head, AppOf(path), order)
    ensures Linear(head[path := File(ParentFor(order), text)])
  {
    hide IsMigration, AppOf, IsChain;
    var next := head[path := File(ParentFor(order), text)];
    forall app ensures HasChain(next, app) {
      if app == AppOf(path) {
        ExtendChain(head, path, order, text);
      } else {
        assert HasChain(head, app);
        var chain :| IsChain(head, app, chain);
        OtherChain(head, path, File(ParentFor(order), text), app, chain);
      }
    }
  }

  /**
   What the check tells the author of one migration to do. Merging the base keeps the migration as it was;
   pointing it at the leaf of the base then puts the branch in order.
   */
  lemma RepointingRestores(mergeBase: Tree, base: Tree, path: Path, stale: File, updated: Tree, order: seq<Path>,
          text: string)
    requires Linear(base) && IsMigration(path) && path !in mergeBase && path !in base
    requires IsMerge(mergeBase, mergeBase[path := stale], base, updated) && IsChain(base, AppOf(path), order)
    ensures updated == base[path := stale]
    ensures Linear(updated[path := File(ParentFor(order), text)])
  {
    hide Linear, IsMigration, AppOf;
    var mine := mergeBase[path := stale];
    forall p ensures (p in updated <==> p == path || p in base)
        && (p in updated ==> updated[p] == base[path := stale][p]) {
      assert MergedAt(At(mergeBase, p), At(mine, p), At(base, p), At(updated, p));
    }
    assert updated[path := File(ParentFor(order), text)] == base[path := File(ParentFor(order), text)];
    AddKeepsLinear(base, path, order, text);
  }

  // ----- histories

  datatype Branch = Branch(mergeBase: Tree, head: Tree)

  datatype World = World(base: Tree, branches: map<nat, Branch>)

  datatype Action =
    | Open(id: nat)
    | Commit(id: nat, path: Path, file: Option<File>)
    | Update(id: nat, merged: Tree)
    | MergePr(id: nat, merged: Tree, renames: Renames)

  /**
   Branches start at the base and may change any file. Updating a branch merges the base into it, as its author or
   the merge train's update-branch call does; a pull request is merged only if it passes the check.
   */
  ghost predicate Enabled(w: World, a: Action) {
    match a
    case Open(_) => true
    case Commit(id, _, _) => id in w.branches
    case Update(id, merged) =>
      id in w.branches && IsMerge(w.branches[id].mergeBase, w.branches[id].head, w.base, merged)
    case MergePr(id, merged, renames) =>
      && id in w.branches
      && var b := w.branches[id];
         && IsRenaming(b.mergeBase, b.head, renames)
         && Passes(b.mergeBase, b.head, w.base, renames)
         && IsMerge(b.mergeBase, b.head, w.base, merged)
  }

  function Written(tree: Tree, path: Path, file: Option<File>): Tree {
    if file.Some? then tree[path := file.value] else tree - {path}
  }

  ghost function Apply(w: World, a: Action): World
    requires Enabled(w, a)
  {
    match a
    case Open(id) => w.(branches := w.branches[id := Branch(w.base, w.base)])
    case Commit(id, path, file) =>
      w.(branches := w.branches[id := Branch(w.branches[id].mergeBase, Written(w.branches[id].head, path, file))])
    case Update(id, merged) => w.(branches := w.branches[id := Branch(w.base, merged)])
    case MergePr(id, merged, _) => World(merged, w.branches - {id})
  }

  ghost predicate Feasible(w: World, actions: seq<Action>)
    decreases |actions|
  {
    actions == [] || (Enabled(w, actions[0]) && Feasible(Apply(w, actions[0]), actions[1..]))
  }

  ghost function Execute(w: World, actions: seq<Action>): World
    requires Feasible(w, actions)
    decreases |actions|
  {
    if actions == [] then w else Execute(Apply(w, actions[0]), actions[1..])
  }

  ghost predicate CoveredStep(w: World, a: Action) {
    a.MergePr? && a.id in w.branches ==> Covered(w.branches[a.id].mergeBase, w.base, a.renames)
  }

  ghost predicate TestedStep(w: World, a: Action) {
    a.MergePr? && a.id in w.branches ==> Tested(w.branches[a.id].mergeBase, w.branches[a.id].head)
  }

  ghost predicate AllCovered(w: World, actions: seq<Action>)
    requires Feasible(w, actions)
    decreases |actions|
  {
    actions != [] ==> CoveredStep(w, actions[0]) && AllCovered(Apply(w, actions[0]), actions[1..])
  }

  ghost predicate AllTested(w: World, actions: seq<Action>)
    requires Feasible(w, actions)
    decreases |actions|
  {
    actions != [] ==> TestedStep(w, actions[0]) && AllTested(Apply(w, actions[0]), actions[1..])
  }

  /** The base has one chain per app now and after every action. */
  ghost predicate AlwaysLinear(w: World, actions: seq<Action>)
    requires Feasible(w, actions)
    decreases |actions|
  {
    Linear(w.base) && (actions != [] ==> AlwaysLinear(Apply(w, actions[0]), actions[1..]))
  }

  lemma StepKeepsIff(w: World, a: Action)
    requires Linear(w.base) && Enabled(w, a) && CoveredStep(w, a)
    ensures Linear(Apply(w, a).base) <==> TestedStep(w, a)
  {
    hide Linear, Tested, Covered, IsMerge, Passes, IsRenaming;
    if a.MergePr? {
      var b := w.branches[a.id];
      PassingMergeKeepsChainsIff(b.mergeBase, b.head, w.base, a.merged, a.renames);
    }
  }

  /** Whole histories, exactly: the base always has one chain per app iff every branch was tested when it was merged. */
  lemma {:induction false} AlwaysLinearIff(w: World, actions: seq<Action>)
    requires Linear(w.base) && Feasible(w, actions) && AllCovered(w, actions)
    ensures AlwaysLinear(w, actions) <==> AllTested(w, actions)
    decreases |actions|
  {
    hide Linear, Enabled, Apply, CoveredStep, TestedStep;
    if actions != [] {
      StepKeepsIff(w, actions[0]);
      if Linear(Apply(w, actions[0]).base) {
        AlwaysLinearIff(Apply(w, actions[0]), actions[1..]);
      }
    }
  }

  lemma {:induction false} EndIsLinear(w: World, actions: seq<Action>)
    requires Feasible(w, actions) && AlwaysLinear(w, actions)
    ensures Linear(Execute(w, actions).base)
    decreases |actions|
  {
    hide Linear, Enabled, Apply;
    if actions != [] {
      EndIsLinear(Apply(w, actions[0]), actions[1..]);
    }
  }

  /**
   In every history whose merges pass the check and were tested, with any commits and updates in between, each app
   of the base branch has one leaf and no duplicate successor.
   */
  lemma BaseStaysLinear(base: Tree, actions: seq<Action>, app: string, p: Path, q: Path)
    requires Linear(base) && Feasible(World(base, map[]), actions)
    requires AllCovered(World(base, map[]), actions) && AllTested(World(base, map[]), actions)
    requires var end := Execute(World(base, map[]), actions).base;
      p in end && q in end && InApp(p, app) && InApp(q, app)
    ensures var end := Execute(World(base, map[]), actions).base;
      && (exists leaf :: InApp(leaf, app) && IsLeaf(end, leaf))
      && (IsLeaf(end, p) && IsLeaf(end, q) ==> p == q)
      && (end[p].parent == end[q].parent ==> p == q)
  {
    hide Linear, IsLeaf;
    AlwaysLinearIff(World(base, map[]), actions);
    EndIsLinear(World(base, map[]), actions);
    LinearHasOneLeaf(Execute(World(base, map[]), actions).base, app, p, q);
  }

  // ----- histories in which nobody edits a migration of the base

  /** Branches write only migrations of their own, and no migration is added on both sides with two contents. */
  ghost predicate Additive(w: World, a: Action) {
    match a
    case Commit(id, path, _) => id in w.branches && IsMigration(path) ==> path !in w.branches[id].mergeBase
    case Update(id, _) => id in w.branches ==> NoClash(w.branches[id], w.base)
    case _ => true
  }

  ghost predicate NoClash(b: Branch, base: Tree) {
    forall p :: IsMigration(p) && p in b.head && p in base && p !in b.mergeBase ==> At(b.head, p) == At(base, p)
  }

  ghost predicate AllAdditive(w: World, actions: seq<Action>)
    requires Feasible(w, actions)
    decreases |actions|
  {
    actions != [] ==> Additive(w, actions[0]) && AllAdditive(Apply(w, actions[0]), actions[1..])
  }

  ghost predicate BranchKept(base: Tree, b: Branch) {
    Kept(b.mergeBase, b.head) && Kept(b.mergeBase, base)
  }

  ghost predicate Growing(w: World) {
    forall id :: id in w.branches ==> BranchKept(w.base, w.branches[id])
  }

  lemma UpdateKeepsBase(b: Branch, base: Tree, merged: Tree)
    requires BranchKept(base, b) && NoClash(b, base) && IsMerge(b.mergeBase, b.head, base, merged)
    ensures Kept(base, merged)
  {
    hide IsMigration;
    forall p | IsMigration(p) && p in base ensures At(merged, p) == At(base, p) {
      assert MergedAt(At(b.mergeBase, p), At(b.head, p), At(base, p), At(merged, p));
    }
  }

  lemma MergeKeepsBase(b: Branch, base: Tree, merged: Tree, renames: Renames)
    requires BranchKept(base, b) && IsRenaming(b.mergeBase, b.head, renames)
    requires Passes(b.mergeBase, b.head, base, renames) && IsMerge(b.mergeBase, b.head, base, merged)
    ensures Covered(b.mergeBase, base, renames) && Kept(base, merged)
  {
    hide IsMigration;
    forall p | p in renames ensures !IsMigration(p) {
      assert IsMigration(p) ==> At(b.head, p) == At(b.mergeBase, p);
    }
    PassingMergeTakesOneSide(b.mergeBase, b.head, base, merged, renames);
    if !SameMigrations(b.mergeBase, b.head) {
      var c :| IsMigration(c) && At(b.mergeBase, c) != At(b.head, c);
      assert ChangedByPr(b.mergeBase, b.head, renames, c);
      forall p | IsMigration(p) && p in base ensures At(merged, p) == At(base, p) {
        assert !GainedByBase(b.mergeBase, base, p);
        assert At(base, p) == At(b.mergeBase, p) == At(b.head, p);
      }
    }
  }

  lemma KeptIsTransitive(a: Tree, b: Tree, c: Tree)
    requires Kept(a, b) && Kept(b, c)
    ensures Kept(a, c)
  {
    hide IsMigration;
  }

  lemma GrowingKept(w: World, a: Action)
    requires Growing(w) && Enabled(w, a) && Additive(w, a)
    ensures Growing(Apply(w, a)) && CoveredStep(w, a)
  {
    hide IsMigration, IsMerge, Passes, IsRenaming, Covered, NoClash;
    match a
    case Open(id) =>
    case Commit(id, path, file) => assert BranchKept(w.base, w.branches[id]);
    case Update(id, merged) =>
      assert BranchKept(w.base, w.branches[id]);
      UpdateKeepsBase(w.branches[id], w.base, merged);
    case MergePr(id, merged, renames) =>
      assert BranchKept(w.base, w.branches[id]);
      MergeKeepsBase(w.branches[id], w.base, merged, renames);
      forall other | other in w.branches ensures BranchKept(merged, w.branches[other]) {
        assert BranchKept(w.base, w.branches[other]);
        KeptIsTransitive(w.branches[other].mergeBase, w.base, merged);
      }
  }

  /**
   If nobody edits, deletes or moves a migration of the base, every passing merge is covered, however stale the
   branch.
   */
  lemma {:induction false} AdditiveIsCovered(w: World, actions: seq<Action>)
    requires Growing(w) && Feasible(w, actions) && AllAdditive(w, actions)
    ensures AllCovered(w, actions)
    decreases |actions|
  {
    hide Growing, Enabled, Apply, CoveredStep, Additive;
    if actions != [] {
      GrowingKept(w, actions[0]);
      AdditiveIsCovered(Apply(w, actions[0]), actions[1..]);
    }
  }

  // ----- histories in which authors do what they are told

  /** The branch adds one migration and leaves the others as they were. */
  ghost predicate OneOwn(b: Branch, path: Path) {
    && IsMigration(path) && path !in b.mergeBase && path in b.head
    && forall p :: IsMigration(p) && p != path ==> At(b.head, p) == At(b.mergeBase, p)
  }

  /** A new migration whose parent is the leaf that its branch sees. */
  ghost predicate Extends(head: Tree, path: Path, file: Option<File>) {
    && IsMigration(path) && path !in head && file.Some?
    && exists order :: IsChain(head, AppOf(path), order) && file.value.parent == ParentFor(order)
  }

  /** The branch's one migration is pointed at the leaf of the base that was merged in. */
  ghost predicate Repoints(b: Branch, path: Path, file: Option<File>) {
    && OneOwn(b, path) && file.Some?
    && exists order :: IsChain(b.mergeBase, AppOf(path), order) && file.value.parent == ParentFor(order)
  }

  /**
   What authors are told. A migration extends the leaf that its branch sees. A branch with one migration may merge the
   base, and is then pending until the migration is pointed at the base's leaf; a branch without one may always.
   */
  ghost predicate Ruled(w: World, pending: set<nat>, a: Action)
    requires Enabled(w, a)
  {
    match a
    case Open(_) => true
    case Commit(id, path, file) =>
      IsMigration(path) ==>
        if id in pending then Repoints(w.branches[id], path, file) else Extends(w.branches[id].head, path, file)
    case Update(id, _) =>
      || SameMigrations(w.branches[id].mergeBase, w.branches[id].head)
      || exists path :: OneOwn(w.branches[id], path) && path !in w.base
    case MergePr(id, _, _) => id !in pending
  }

  ghost function PendingAfter(w: World, pending: set<nat>, a: Action): set<nat>
    requires Enabled(w, a)
  {
    match a
    case Open(id) => pending - {id}
    case Commit(id, path, _) => if IsMigration(path) then pending - {id} else pending
    case Update(id, _) =>
      if SameMigrations(w.branches[id].mergeBase, w.branches[id].head) then pending else pending + {id}
    case MergePr(id, _, _) => pending
  }

  ghost predicate AllRuled(w: World, pending: set<nat>, actions: seq<Action>)
    requires Feasible(w, actions)
    decreases |actions|
  {
    actions != [] ==>
      && Ruled(w, pending, actions[0])
      && AllRuled(Apply(w, actions[0]), PendingAfter(w, pending, actions[0]), actions[1..])
  }

  /** A branch is in order, or adds one migration to a base that is. */
  ghost predicate BranchRuled(b: Branch, isPending: bool) {
    if isPending then Linear(b.mergeBase) && exists path :: OneOwn(b, path) else Linear(b.head)
  }

  ghost predicate InOrder(w: World, pending: set<nat>) {
    && Linear(w.base)
    && (forall id :: id in w.branches ==> BranchKept(w.base, w.branches[id]))
    && (forall id :: id in w.branches ==> BranchRuled(w.branches[id], id in pending))
  }

  lemma ExtendKeeps(b: Branch, path: Path, file: Option<File>)
    requires Linear(b.head) && Kept(b.mergeBase, b.head) && Extends(b.head, path, file)
    ensures Linear(Written(b.head, path, file)) && path !in b.mergeBase
  {
    hide Linear, IsChain;
    assert path in b.mergeBase ==> At(b.head, path) == At(b.mergeBase, path);
    hide IsMigration, AppOf;
    var order :| IsChain(b.head, AppOf(path), order) && file.value.parent == ParentFor(order);
    AddKeepsLinear(b.head, path, order, file.value.text);
    assert file.value == File(ParentFor(order), file.value.text);
  }

  lemma RepointKeeps(b: Branch, path: Path, file: Option<File>)
    requires Linear(b.mergeBase) && Repoints(b, path, file)
    ensures Linear(Written(b.head, path, file))
  {
    hide Linear, IsChain, IsMigration, AppOf;
    var order :| IsChain(b.mergeBase, AppOf(path), order) && file.value.parent == ParentFor(order);
    AddKeepsLinear(b.mergeBase, path, order, file.value.text);
    assert file.value == File(ParentFor(order), file.value.text);
    SameChains(b.mergeBase[path := file.value], Written(b.head, path, file));
  }

  lemma OtherFileKeeps(b: Branch, isPending: bool, path: Path, file: Option<File>)
    requires BranchRuled(b, isPending) && !IsMigration(path)
    ensures BranchRuled(Branch(b.mergeBase, Written(b.head, path, file)), isPending)
  {
    hide Linear, IsMigration;
    var head := Written(b.head, path, file);
    if isPending {
      var own :| OneOwn(b, own);
      assert OneOwn(Branch(b.mergeBase, head), own);
    } else {
      SameChains(b.head, head);
    }
  }

  lemma UpdatedBranch(b: Branch, base: Tree, merged: Tree, isPending: bool)
    requires Linear(base) && BranchRuled(b, isPending) && IsMerge(b.mergeBase, b.head, base, merged)
    requires SameMigrations(b.mergeBase, b.head) || exists path :: OneOwn(b, path) && path !in base
    ensures BranchRuled(Branch(base, merged), isPending || !SameMigrations(b.mergeBase, b.head))
    ensures NoClash(b, base)
  {
    hide Linear, IsMigration;
    if isPending {
      PendingHasOwn(b);
    }
    if SameMigrations(b.mergeBase, b.head) {
      forall p | IsMigration(p) ensures At(base, p) == At(merged, p) {
        assert MergedAt(At(b.mergeBase, p), At(b.head, p), At(base, p), At(merged, p));
      }
      SameChains(base, merged);
      assert forall p :: IsMigration(p) ==> At(b.head, p) == At(b.mergeBase, p);
    } else {
      var path :| OneOwn(b, path) && path !in base;
      forall p | IsMigration(p) && p != path ensures At(merged, p) == At(base, p) {
        assert MergedAt(At(b.mergeBase, p), At(b.head, p), At(base, p), At(merged, p));
      }
      assert MergedAt(At(b.mergeBase, path), At(b.head, path), At(base, path), At(merged, path));
      assert OneOwn(Branch(base, merged), path);
      assert forall p :: IsMigration(p) && p != path ==> At(b.head, p) == At(b.mergeBase, p);
    }
  }

  /** A pending branch has a migration of its own. */
  lemma PendingHasOwn(b: Branch)
    requires BranchRuled(b, true)
    ensures !SameMigrations(b.mergeBase, b.head)
  {
    hide Linear, IsMigration;
    var path :| OneOwn(b, path);
    assert At(b.mergeBase, path) != At(b.head, path);
  }

  lemma RuledIsAdditive(w: World, pending: set<nat>, a: Action)
    requires InOrder(w, pending) && Enabled(w, a) && Ruled(w, pending, a)
    ensures Additive(w, a)
  {
    hide Linear, IsMigration, IsChain, AppOf, IsMerge, Passes;
    match a
    case Commit(id, path, file) =>
      var b := w.branches[id];
      assert BranchKept(w.base, b);
      assert IsMigration(path) && path in b.mergeBase ==> At(b.head, path) == At(b.mergeBase, path);
    case Update(id, merged) =>
      assert BranchRuled(w.branches[id], id in pending);
      UpdatedBranch(w.branches[id], w.base, merged, id in pending);
    case _ =>
  }

  lemma CommitRuled(w: World, pending: set<nat>, id: nat, path: Path, file: Option<File>)
    requires InOrder(w, pending) && id in w.branches && Ruled(w, pending, Commit(id, path, file))
    ensures BranchRuled(Branch(w.branches[id].mergeBase, Written(w.branches[id].head, path, file)),
                        id in PendingAfter(w, pending, Commit(id, path, file)))
  {
    hide Linear, IsMigration, Extends, Repoints, Written;
    var b := w.branches[id];
    assert BranchKept(w.base, b) && BranchRuled(b, id in pending);
    if !IsMigration(path) {
      OtherFileKeeps(b, id in pending, path, file);
    } else if id in pending {
      RepointKeeps(b, path, file);
    } else {
      ExtendKeeps(b, path, file);
    }
  }

  /**
   Every step that keeps to the rules keeps the base and the branches in order, and merges what is covered and tested.
   */
  lemma RuledStep(w: World, pending: set<nat>, a: Action)
    requires InOrder(w, pending) && Enabled(w, a) && Ruled(w, pending, a)
    ensures InOrder(Apply(w, a), PendingAfter(w, pending, a))
    ensures CoveredStep(w, a) && TestedStep(w, a)
  {
    RuledIsAdditive(w, pending, a);
    GrowingKept(w, a);
    hide Linear, IsMigration, Additive, BranchKept, IsMerge, Passes, IsRenaming, Covered;
    assert TestedStep(w, a) by {
      if a.MergePr? {
        assert BranchRuled(w.branches[a.id], a.id in pending);
      }
    }
    StepKeepsIff(w, a);
    match a
    case Open(id) =>
    case Commit(id, path, file) =>
      CommitRuled(w, pending, id, path, file);
      hide BranchRuled;
    case Update(id, merged) =>
      assert BranchRuled(w.branches[id], id in pending);
      UpdatedBranch(w.branches[id], w.base, merged, id in pending);
      hide BranchRuled;
    case MergePr(id, merged, renames) =>
      hide BranchRuled;
  }

  lemma {:induction false} RuledHistory(w: World, pending: set<nat>, actions: seq<Action>)
    requires InOrder(w, pending) && Feasible(w, actions) && AllRuled(w, pending, actions)
    ensures AllCovered(w, actions) && AllTested(w, actions) && AlwaysLinear(w, actions)
    decreases |actions|
  {
    hide Linear, Enabled, Apply, CoveredStep, TestedStep, Ruled, PendingAfter, BranchKept, BranchRuled;
    if actions != [] {
      RuledStep(w, pending, actions[0]);
      RuledHistory(Apply(w, actions[0]), PendingAfter(w, pending, actions[0]), actions[1..]);
    }
  }

  /**
   If every migration extends the leaf that its branch sees, or after an update is pointed at the leaf of the base,
   and every merge passes the check, each app of the base branch has one leaf and no duplicate successor for ever.
   */
  lemma OneLeafForEver(base: Tree, actions: seq<Action>, app: string, p: Path, q: Path)
    requires Linear(base) && Feasible(World(base, map[]), actions) && AllRuled(World(base, map[]), {}, actions)
    requires var end := Execute(World(base, map[]), actions).base;
      p in end && q in end && InApp(p, app) && InApp(q, app)
    ensures AlwaysLinear(World(base, map[]), actions)
    ensures var end := Execute(World(base, map[]), actions).base;
      && (exists leaf :: InApp(leaf, app) && IsLeaf(end, leaf))
      && (IsLeaf(end, p) && IsLeaf(end, q) ==> p == q)
      && (end[p].parent == end[q].parent ==> p == q)
  {
    hide Linear, IsLeaf;
    RuledHistory(World(base, map[]), {}, actions);
    BaseStaysLinear(base, actions, app, p, q);
  }

  // ----- what the check does not see

  /** Two migrations of one app with the same parent are in no chain. */
  lemma TwoSuccessors(tree: Tree, app: string, left: Path, right: Path)
    requires InApp(left, app) && InApp(right, app) && left != right
    requires left in tree && right in tree && tree[left].parent == tree[right].parent
    ensures !Linear(tree)
  {
    hide IsLeaf;
    if Linear(tree) {
      LinearHasOneLeaf(tree, app, left, right);
    }
  }

  /**
   Two branches that extend one migration collide, which is why the check exists: it fails before the update. Merging
   the base into the branch makes it pass, since the update adds nothing to the base side of the comparison; the
   collision is still there, and every merge of the branch forks the chain.
   */
  lemma UpdateIsNoFix(mergeBase: Tree, app: string, left: Path, right: Path, mine: File, theirs: File, updated: Tree)
    requires InApp(left, app) && InApp(right, app) && left != right && left !in mergeBase && right !in mergeBase
    requires mine.parent == theirs.parent
    requires IsMerge(mergeBase, mergeBase[left := mine], mergeBase[right := theirs], updated)
    ensures !Passes(mergeBase, mergeBase[left := mine], mergeBase[right := theirs], map[])
    ensures Passes(mergeBase[right := theirs], updated, mergeBase[right := theirs], map[])
    ensures !Linear(updated)
    ensures forall merged :: IsMerge(mergeBase[right := theirs], updated, mergeBase[right := theirs], merged) ==>
              !Linear(merged)
  {
    var head, base := mergeBase[left := mine], mergeBase[right := theirs];
    assert ChangedByPr(mergeBase, head, map[], left) && GainedByBase(mergeBase, base, right);
    assert MergedAt(At(mergeBase, left), At(head, left), At(base, left), At(updated, left));
    assert MergedAt(At(mergeBase, right), At(head, right), At(base, right), At(updated, right));
    hide Linear, IsMerge, Passes;
    TwoSuccessors(updated, app, left, right);
    forall merged ensures Passes(base, updated, base, map[])
        && (IsMerge(base, updated, base, merged) ==> !Linear(merged)) {
      UpToDateMerge(base, updated, merged, map[]);
    }
    UpToDateMerge(base, updated, updated, map[]);
  }

  /**
   What the check leaves open, exactly: for a branch that only adds migrations and lacks none that the base gained,
   the merge has the branch's migrations iff the base neither deleted nor edited one since the branch started.
   */
  lemma MergeIsHeadIff(mergeBase: Tree, head: Tree, base: Tree, merged: Tree)
    requires Kept(mergeBase, head) && IsMerge(mergeBase, head, base, merged)
    requires forall p :: !GainedByBase(mergeBase, base, p)
    ensures SameMigrations(merged, head) <==> Kept(mergeBase, base)
  {
    hide IsMigration;
    forall p | IsMigration(p)
      ensures At(merged, p) == At(head, p) <==> (p in mergeBase ==> At(base, p) == At(mergeBase, p))
    {
      assert !GainedByBase(mergeBase, base, p);
      assert MergedAt(At(mergeBase, p), At(head, p), At(base, p), At(merged, p));
    }
  }

  /** A migration deleted on the base branch is invisible to the check, and the merge dangles. */
  lemma DeletionIsNotSeen(root: Path, gone: Path, mine: Path)
    requires IsMigration(root) && IsMigration(gone) && IsMigration(mine) && root != gone && gone != mine && mine != root
    ensures var mergeBase := map[root := File(None, ""), gone := File(Some(root), "")];
      var head := mergeBase[mine := File(Some(gone), "")];
      var base := map[root := File(None, "")];
      && Passes(mergeBase, head, base, map[])
      && forall merged: Tree :: IsMerge(mergeBase, head, base, merged) ==>
           mine in merged && merged[mine].parent == Some(gone) && gone !in merged
  {
    var mergeBase := map[root := File(None, ""), gone := File(Some(root), "")];
    var head := mergeBase[mine := File(Some(gone), "")];
    var base := map[root := File(None, "")];
    forall merged: Tree | IsMerge(mergeBase, head, base, merged)
      ensures mine in merged && merged[mine].parent == Some(gone) && gone !in merged
    {
      assert MergedAt(At(mergeBase, mine), At(head, mine), At(base, mine), At(merged, mine));
      assert MergedAt(At(mergeBase, gone), At(head, gone), At(base, gone), At(merged, gone));
    }
  }

  /** So is a migration that the branch moves out of its folder, although the base gained a successor of it. */
  lemma MoveIsNotSeen(root: Path, moved: Path, away: Path, theirs: Path)
    requires IsMigration(root) && IsMigration(moved) && IsMigration(theirs) && !IsMigration(away)
    requires root != moved && moved != theirs && theirs != root
    ensures var mergeBase := map[root := File(None, ""), moved := File(Some(root), "")];
      var head := map[root := File(None, ""), away := File(Some(root), "")];
      var base := mergeBase[theirs := File(Some(moved), "")];
      && IsRenaming(mergeBase, head, map[moved := away])
      && Passes(mergeBase, head, base, map[moved := away])
      && !Passes(mergeBase, head, base, map[])
      && forall merged: Tree :: IsMerge(mergeBase, head, base, merged) ==>
           theirs in merged && merged[theirs].parent == Some(moved) && moved !in merged
  {
    var mergeBase := map[root := File(None, ""), moved := File(Some(root), "")];
    var head := map[root := File(None, ""), away := File(Some(root), "")];
    var base := mergeBase[theirs := File(Some(moved), "")];
    hide IsMigration;
    assert forall p :: !ChangedByPr(mergeBase, head, map[moved := away], p);
    assert ChangedByPr(mergeBase, head, map[], moved) && GainedByBase(mergeBase, base, theirs);
    forall merged: Tree | IsMerge(mergeBase, head, base, merged)
      ensures theirs in merged && merged[theirs].parent == Some(moved) && moved !in merged
    {
      assert MergedAt(At(mergeBase, moved), At(head, moved), At(base, moved), At(merged, moved));
      assert MergedAt(At(mergeBase, theirs), At(head, theirs), At(base, theirs), At(merged, theirs));
    }
  }
}
