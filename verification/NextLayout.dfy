/** Repairing a misplaced Next.js router (syte/nextjs_layout.py). */
module NextLayout {
  import opened Wrappers
  import opened FileTree

  const APP_ROUTER_FILES := ["page.tsx", "page.jsx", "page.ts", "page.js", "layout.tsx", "layout.jsx"]
  const PAGES_ROUTER_FILES := ["index.tsx", "index.jsx", "index.ts", "index.js", "_app.tsx", "_app.jsx"]

  // the texts themselves do not matter here
  const MINIMAL_LAYOUT := "layout"
  const MINIMAL_PAGE := "page"

  // ----- looking for a router

  predicate EndsWith(s: string, suffix: string) {
    |suffix| <= |s| && s[|s| - |suffix|..] == suffix
  }

  predicate HasAny(d: Entries, names: seq<string>) {
    exists i :: 0 <= i < |names| && names[i] in d
  }

  /** A recursive glob for *.tsx or *.jsx. */
  predicate HasScript(node: Node) {
    && node.Dir?
    && exists n :: n in node.entries && (EndsWith(n, ".tsx") || EndsWith(n, ".jsx") || HasScript(node.entries[n]))
  }

  /** A recursive glob for page.tsx or page.jsx. */
  predicate HasPage(node: Node) {
    node.Dir? && exists n :: n in node.entries && (n == "page.tsx" || n == "page.jsx" || HasPage(node.entries[n]))
  }

  predicate HasRouterFiles(dir: Option<Entries>, pages: bool) {
    && dir.Some?
    && (HasAny(dir.value, APP_ROUTER_FILES)
        || if pages then HasAny(dir.value, PAGES_ROUTER_FILES) || HasScript(Dir(dir.value))
           else HasPage(Dir(dir.value)))
  }

  predicate HasRouterIn(d: Entries) {
    HasRouterFiles(Subdir(d, "app"), false) || HasRouterFiles(Subdir(d, "pages"), true)
  }

  /** find_router_dir: app, pages, src/app or src/pages has router files. */
  predicate HasRouter(repo: Entries) {
    HasRouterIn(repo) || (Subdir(repo, "src").Some? && HasRouterIn(Subdir(repo, "src").value))
  }

  // ----- the repair, step by step

  /** The names that are moved: the App Router files and the global style sheet. */
  function Movables(): seq<string> {
    APP_ROUTER_FILES + ["globals.css"]
  }

  datatype Action = Moved(fromSrc: bool, name: string) | Created(name: string)

  /** A stage of the repair either leaves a tree and its actions, or raises and leaves a tree. */
  datatype Result = Done(tree: Entries, actions: seq<Action>) | Raised(tree: Entries)

  /** The move loop: a name that is here and not yet in the app directory is moved there. */
  function MoveAll(d: Entries, app: Entries, names: seq<string>, fromSrc: bool): (Entries, Entries, seq<Action>) {
    if names == [] then (d, app, [])
    else
      var name := names[|names| - 1];
      var (d', app', actions) := MoveAll(d, app, names[..|names| - 1], fromSrc);
      if name in d' && name !in app' then (d' - {name}, app'[name := d'[name]], actions + [Moved(fromSrc, name)])
      else (d', app', actions)
  }

  /** Moving misplaced files of a directory, if there are any, into its app directory. */
  function Promote(d: Entries, fromSrc: bool): Result {
    if !HasAny(d, Movables()) then Done(d, [])
    else
      match MakeDir(d, "app")
      case None => Raised(d)
      case Some(made) =>
        var (d', app', actions) := MoveAll(made, made["app"].entries, Movables(), fromSrc);
        Done(d'["app" := Dir(app')], actions)
  }

  function WriteNew(d: Entries, name: string, content: string): Entries {
    if name in d then d else d[name := File(content)]
  }

  /** A minimal app directory for a project that only has components. */
  function Scaffold(repo: Entries): Result {
    match MakeDir(repo, "app")
    case None => Raised(repo)
    case Some(made) =>
      var app := made["app"].entries;
      var laid := WriteNew(app, "layout.tsx", MINIMAL_LAYOUT);
      var paged := WriteNew(laid, "page.tsx", MINIMAL_PAGE);
      Done(made["app" := Dir(paged)],
           (if "layout.tsx" in app then [] else [Created("layout.tsx")])
           + (if "page.tsx" in laid then [] else [Created("page.tsx")]))
  }

  predicate HasComponents(repo: Entries) {
    "components" in repo || (Subdir(repo, "src").Some? && "components" in Subdir(repo, "src").value)
  }

  /** The stage for files under src, which is skipped without a src directory or with a router. */
  function PromoteSrc(repo: Entries): Result {
    var src := Subdir(repo, "src");
    if src.None? || HasRouter(repo) then Done(repo, [])
    else
      match Promote(src.value, true)
      case Raised(_) => Raised(repo)
      case Done(src', actions) => Done(repo["src" := Dir(src')], actions)
  }

  /** fix_nextjs_layout. `isNext` is is_nextjs_repo, which reads only package.json. */
  function Fix(repo: Entries, isNext: bool): Result {
    if !isNext || HasRouter(repo) then Done(repo, [])
    else
      match Promote(repo, false)
      case Raised(t1) => Raised(t1)
      case Done(t1, a1) =>
        if a1 != [] && HasRouter(t1) then Done(t1, a1)
        else
          match PromoteSrc(t1)
          case Raised(t2) => Raised(t2)
          case Done(t2, a2) =>
            if HasRouter(t2) || !HasComponents(t2) then Done(t2, a1 + a2)
            else
              match Scaffold(t2)
              case Raised(t3) => Raised(t3)
              case Done(t3, a3) => Done(t3, a1 + a2 + a3)
  }

  /** validate_nextjs_for_docker. */
  predicate Accepts(repo: Entries, isNext: bool) {
    !isNext || HasRouter(repo)
  }

  // ----- what moving does

  /** Nothing is dropped or overwritten: an entry stays where it was, or it has become the entry of
      the same name in the app directory, where there was none; app entries stay. */
  ghost predicate Promoted(d: Entries, d': Entries) {
    var app, app' := Subdir(d, "app"), Subdir(d', "app");
    && ("app" in d ==> d["app"].Dir?)
    && app'.Some?
    && (forall n :: n in d && n != "app" ==>
          (n in d' && d'[n] == d[n]) || (n in Movables() && n in app'.value && app'.value[n] == d[n]
                                         && (app.Some? ==> n !in app.value)))
    && (forall n :: n in d' && n != "app" ==> n in d && d'[n] == d[n])
    && (app.Some? ==> forall n :: n in app.value ==> n in app'.value && app'.value[n] == app.value[n])
    && (forall n :: n in app'.value && (app.None? || n !in app.value) ==>
      n in d && n in Movables() && app'.value[n] == d[n])
  }

  ghost predicate MovedOver(d: Entries, app: Entries, names: seq<string>, d': Entries, app': Entries) {
    && (forall n :: n in d ==> (n in d' && d'[n] == d[n]) || (n in names && n !in app && n in app' && app'[n] == d[n]))
    && (forall n :: n in d' ==> n in d && d'[n] == d[n] && (n in names ==> n in app))
    && (forall n :: n in app ==> n in app' && app'[n] == app[n])
    && (forall n :: n in app' && n !in app ==> n in names && n in d && n !in d' && app'[n] == d[n])
  }

  lemma {:induction false} MoveAllMoves(d: Entries, app: Entries, names: seq<string>, fromSrc: bool)
    ensures MovedOver(d, app, names, MoveAll(d, app, names, fromSrc).0, MoveAll(d, app, names, fromSrc).1)
    ensures MoveAll(d, app, names, fromSrc).2 == [] <==> forall n :: n in names && n in d ==> n in app
    ensures MoveAll(d, app, names, fromSrc).2 == [] ==>
        MoveAll(d, app, names, fromSrc).0 == d && MoveAll(d, app, names, fromSrc).1 == app
  {
    if names != [] {
      var front, name := names[..|names| - 1], names[|names| - 1];
      MoveAllMoves(d, app, front, fromSrc);
      assert names == front + [name];
    }
  }

  lemma MovablesAre()
    ensures "app" !in Movables() && "src" !in Movables() && "components" !in Movables() && "package.json" !in Movables()
    ensures forall i :: 0 <= i < |APP_ROUTER_FILES| ==> APP_ROUTER_FILES[i] in Movables()
    ensures "layout.tsx" in APP_ROUTER_FILES
  {
    assert forall i :: 0 <= i < |APP_ROUTER_FILES| ==> Movables()[i] == APP_ROUTER_FILES[i];
    assert APP_ROUTER_FILES[4] == "layout.tsx";
  }

  /** Making the app directory and then moving is a promotion. */
  lemma MoveIsPromotion(d: Entries, made: Entries, d': Entries, app': Entries)
    requires MakeDir(d, "app") == Some(made) && MovedOver(made, made["app"].entries, Movables(), d', app')
    ensures Promoted(d, d'["app" := Dir(app')])
  {
    MovablesAre();
    assert Subdir(d'["app" := Dir(app')], "app") == Some(app');
  }

  lemma PromoteMoves(d: Entries, fromSrc: bool)
    requires Promote(d, fromSrc).Done? && HasAny(d, Movables())
    ensures Promoted(d, Promote(d, fromSrc).tree)
    ensures forall n :: n in Movables() && n in d ==> n in Subdir(Promote(d, fromSrc).tree, "app").value
  {
    MovablesAre();
    var made := MakeDir(d, "app").value;
    var (d', app', actions) := MoveAll(made, made["app"].entries, Movables(), fromSrc);
    MoveAllMoves(made, made["app"].entries, Movables(), fromSrc);
    MoveIsPromotion(d, made, d', app');
  }

  /** Once every movable name is taken in the app directory, moving does nothing. */
  ghost predicate Settled(d: Entries) {
    HasAny(d, Movables()) ==>
      Subdir(d, "app").Some? && forall n :: n in Movables() && n in d ==> n in Subdir(d, "app").value
  }

  lemma SettledStays(d: Entries, fromSrc: bool)
    requires Settled(d)
    ensures Promote(d, fromSrc) == Done(d, [])
  {
    if HasAny(d, Movables()) {
      var app := d["app"].entries;
      MoveAllMoves(d, app, Movables(), fromSrc);
      assert d["app" := Dir(app)] == d;
    }
  }

  lemma PromoteSettles(d: Entries, fromSrc: bool)
    requires Promote(d, fromSrc).Done?
    ensures Settled(Promote(d, fromSrc).tree)
    ensures Promote(d, fromSrc).tree == d || Promoted(d, Promote(d, fromSrc).tree)
  {
    if HasAny(d, Movables()) {
      PromoteMoves(d, fromSrc);
      MovablesAre();
      var d' := Promote(d, fromSrc).tree;
      forall n | n in Movables() && n in d'
        ensures n in Subdir(d', "app").value
      {
        assert n in d;
      }
    }
  }

  // ----- the main results

  /** A second run does nothing: no actions, and the same tree. */
  lemma FixIsIdempotent(repo: Entries, isNext: bool)
    requires Fix(repo, isNext).Done?
    ensures Fix(Fix(repo, isNext).tree, isNext) == Done(Fix(repo, isNext).tree, [])
  {
    var t := Fix(repo, isNext).tree;
    if isNext && !HasRouter(t) {
      UnroutedIsSettled(repo);
      SettledStays(t, false);
      if Subdir(t, "src").Some? {
        SettledStays(Subdir(t, "src").value, true);
        assert t["src" := Dir(Subdir(t, "src").value)] == t;
      }
    }
  }

  /** If there is still no router after the repair then both stages have settled, and there are no
      components to scaffold for. */
  lemma UnroutedIsSettled(repo: Entries)
    requires Fix(repo, true).Done? && !HasRouter(Fix(repo, true).tree)
    ensures var t := Fix(repo, true).tree;
      Settled(t) && (Subdir(t, "src").Some? ==> Settled(Subdir(t, "src").value)) && !HasComponents(t)
  {
    var t1 := Promote(repo, false).tree;
    PromoteSettles(repo, false);
    var t2 := PromoteSrc(t1).tree;
    MovablesAre();
    if Subdir(t1, "src").Some? && !HasRouter(t1) {
      PromoteSettles(Subdir(t1, "src").value, true);
      SrcKeepsSettled(t1, Subdir(t2, "src").value);
    }
    if !HasRouter(t2) && HasComponents(t2) {
      ScaffoldRoutes(t2);
    }
  }

  lemma SrcKeepsSettled(t: Entries, src: Entries)
    requires Settled(t) && "src" in t
    ensures Settled(t["src" := Dir(src)])
  {
    MovablesAre();
    var t' := t["src" := Dir(src)];
    if HasAny(t', Movables()) {
      var i :| 0 <= i < |Movables()| && Movables()[i] in t';
      assert Movables()[i] in Movables() && Movables()[i] in t;
    }
  }

  lemma ScaffoldRoutes(repo: Entries)
    requires Scaffold(repo).Done?
    ensures HasRouter(Scaffold(repo).tree)
  {
    MovablesAre();
    var app := Subdir(Scaffold(repo).tree, "app").value;
    assert APP_ROUTER_FILES[4] == "layout.tsx" && "layout.tsx" in app;
  }

  /** An App Router file at the root, or in src, or a components directory: then the repaired
      project is accepted. */
  lemma FixedIsAccepted(repo: Entries, isNext: bool)
    requires Fix(repo, isNext).Done?
    requires HasAny(repo, APP_ROUTER_FILES) || HasComponents(repo)
             || (Subdir(repo, "src").Some? && HasAny(Subdir(repo, "src").value, APP_ROUTER_FILES))
    ensures Accepts(Fix(repo, isNext).tree, isNext)
  {
    if isNext && !HasRouter(repo) {
      var t1 := Promote(repo, false).tree;
      KeepsAside(repo, false);
      if HasAny(repo, APP_ROUTER_FILES) {
        PromoteRoutes(repo, false);
      }
      if !HasRouter(t1) {
        if Subdir(t1, "src").Some? {
          var src := Subdir(t1, "src").value;
          KeepsAside(src, true);
          if HasAny(src, APP_ROUTER_FILES) {
            PromoteRoutes(src, true);
          }
        }
        var t2 := PromoteSrc(t1).tree;
        if !HasRouter(t2) && HasComponents(t2) {
          ScaffoldRoutes(t2);
        }
      }
    }
  }

  /** A misplaced App Router file becomes a router. */
  lemma PromoteRoutes(d: Entries, fromSrc: bool)
    requires Promote(d, fromSrc).Done? && HasAny(d, APP_ROUTER_FILES)
    ensures HasRouterIn(Promote(d, fromSrc).tree)
  {
    MovablesAre();
    var i :| 0 <= i < |APP_ROUTER_FILES| && APP_ROUTER_FILES[i] in d;
    var k :| 0 <= k < |Movables()| && Movables()[k] == APP_ROUTER_FILES[i];
    assert HasAny(d, Movables());
    PromoteMoves(d, fromSrc);
  }

  /** Promoting a directory leaves src and components in it as they are. */
  lemma KeepsAside(d: Entries, fromSrc: bool)
    requires Promote(d, fromSrc).Done?
    ensures forall n :: n == "src" || n == "components" ==>
      (n in Promote(d, fromSrc).tree <==> n in d) && (n in d ==> Promote(d, fromSrc).tree[n] == d[n])
  {
    MovablesAre();
    if HasAny(d, Movables()) {
      PromoteMoves(d, fromSrc);
    }
  }

  /** The repair raises only when something called app that is no directory is in the way. */
  lemma RaisesOnlyIfBlocked(repo: Entries, isNext: bool)
    requires Fix(repo, isNext).Raised?
    ensures ("app" in repo && repo["app"].File?)
            || (Subdir(repo, "src").Some? && "app" in Subdir(repo, "src").value
              && Subdir(repo, "src").value["app"].File?)
  {
    if Promote(repo, false).Done? {
      KeepsAside(repo, false);
      var t1 := Promote(repo, false).tree;
      if HasAny(repo, Movables()) {
        PromoteMoves(repo, false);
      }
      if PromoteSrc(t1).Done? {
        assert Scaffold(PromoteSrc(t1).tree).Raised?;
        assert "app" in t1 && t1["app"].File?;
      }
    }
  }

  /** What a repair keeps, entry by entry: at the root and in src nothing is dropped or overwritten,
      and entries only move into an app directory where their name was free. */
  ghost predicate Keeps(a: Entries, b: Entries) {
    && (forall n :: n in a && n != "app" && n != "src" ==> (n in b && b[n] == a[n]) || MovedToApp(a, b, n))
    && ("app" in a && a["app"].File? ==> "app" in b && b["app"] == a["app"])
    && (Subdir(a, "app").Some? ==> Subdir(b, "app").Some? && Extends(Subdir(a, "app").value, Subdir(b, "app").value))
    && ("src" in a && a["src"].File? ==> "src" in b && b["src"] == a["src"])
    && (Subdir(a, "src").Some? ==> Subdir(b, "src").Some? && SrcKept(Subdir(a, "src").value, Subdir(b, "src").value))
  }

  /** The entry has become the app directory's, where its name was free. */
  ghost predicate MovedToApp(a: Entries, b: Entries, n: string) {
    && n in a && n in Movables()
    && (Subdir(a, "app").Some? ==> n !in Subdir(a, "app").value)
    && Subdir(b, "app").Some? && n in Subdir(b, "app").value && Subdir(b, "app").value[n] == a[n]
  }

  ghost predicate SrcKept(src: Entries, src': Entries) {
    src' == src || Promoted(src, src')
  }

  lemma RootStageKeeps(repo: Entries)
    requires Promote(repo, false).Done?
    ensures Keeps(repo, Promote(repo, false).tree)
    ensures "src" in repo <==> "src" in Promote(repo, false).tree
    ensures "src" in repo ==> Promote(repo, false).tree["src"] == repo["src"]
  {
    PromoteSettles(repo, false);
    KeepsAside(repo, false);
  }

  lemma SrcReplaced(repo: Entries, t: Entries, src: Entries)
    requires Keeps(repo, t) && "src" in t && Subdir(repo, "src").Some? && SrcKept(Subdir(repo, "src").value, src)
    ensures Keeps(repo, t["src" := Dir(src)])
  {
    MovablesAre();
    var t' := t["src" := Dir(src)];
    assert Subdir(t', "app") == Subdir(t, "app") && Subdir(t', "src") == Some(src);
  }

  lemma SrcStageKeeps(repo: Entries, t: Entries)
    requires PromoteSrc(t).Done? && Keeps(repo, t)
    requires "src" in repo <==> "src" in t
    requires "src" in repo ==> t["src"] == repo["src"]
    ensures Keeps(repo, PromoteSrc(t).tree)
  {
    if Subdir(t, "src").Some? && !HasRouter(t) {
      var src := Subdir(t, "src").value;
      PromoteSettles(src, true);
      SrcReplaced(repo, t, Promote(src, true).tree);
    }
  }

  lemma ScaffoldKeeps(repo: Entries, t: Entries)
    requires Scaffold(t).Done? && Keeps(repo, t)
    ensures Keeps(repo, Scaffold(t).tree)
  {
  }

  lemma NothingKeeps(repo: Entries)
    ensures Keeps(repo, repo)
  {
  }

  /** A repair overwrites and drops nothing, even one that raises halfway. */
  lemma FixIsLossless(repo: Entries, isNext: bool)
    ensures Keeps(repo, Fix(repo, isNext).tree)
  {
    NothingKeeps(repo);
    if isNext && !HasRouter(repo) && Promote(repo, false).Done? {
      var t1 := Promote(repo, false).tree;
      RootStageKeeps(repo);
      if PromoteSrc(t1).Done? {
        SrcStageKeeps(repo, t1);
        var t2 := PromoteSrc(t1).tree;
        if Scaffold(t2).Done? {
          ScaffoldKeeps(repo, t2);
        }
      }
    }
  }

  /** After the src stage both stages have nothing left to do, if there is still no router. */
  lemma SrcStageSettles(t: Entries)
    requires Settled(t) && PromoteSrc(t).Done? && !HasRouter(PromoteSrc(t).tree)
    ensures var t' := PromoteSrc(t).tree;
      Promote(t', false) == Done(t', []) && PromoteSrc(t') == Done(t', [])
  {
    var t' := PromoteSrc(t).tree;
    if Subdir(t, "src").Some? {
      PromoteSettles(Subdir(t, "src").value, true);
      SrcKeepsSettled(t, Subdir(t', "src").value);
      SettledStays(Subdir(t', "src").value, true);
      assert t'["src" := Dir(Subdir(t', "src").value)] == t';
    }
    SettledStays(t', false);
  }

  /** A repair that raised raises again, and leaves the tree as it is. */
  lemma RaisedStaysRaised(repo: Entries, isNext: bool)
    requires Fix(repo, isNext).Raised?
    ensures Fix(Fix(repo, isNext).tree, isNext) == Fix(repo, isNext)
  {
    if Promote(repo, false).Done? {
      PromoteSettles(repo, false);
      var t1 := Promote(repo, false).tree;
      SettledStays(t1, false);
      if PromoteSrc(t1).Done? {
        SrcStageSettles(t1);
      }
    }
  }

  ghost predicate Extends(a: Entries, b: Entries) {
    forall n :: n in a ==> n in b && b[n] == a[n]
  }

  /** package.json stays as it is, so the project is still taken for what it was. */
  lemma PackageJsonStays(repo: Entries, isNext: bool)
    requires "package.json" in repo
    ensures "package.json" in Fix(repo, isNext).tree && Fix(repo, isNext).tree["package.json"] == repo["package.json"]
  {
    MovablesAre();
    FixIsLossless(repo, isNext);
  }

  lemma NotApp(name: string)
    requires name in Movables()
    ensures name != "app"
  {
    MovablesAre();
  }

  // ----- in place

  class Repository {
    var tree: Entries

    constructor (tree: Entries)
      ensures this.tree == tree
    {
      this.tree := tree;
    }

    /** The move loop and the making of the app directory, on the tree itself; `ok` is false when
        mkdir raises. */
    method PromoteRoot() returns (ok: bool, actions: seq<Action>)
      modifies this
      ensures ok <==> Promote(old(tree), false).Done?
      ensures ok ==> Done(tree, actions) == Promote(old(tree), false)
      ensures !ok ==> tree == old(tree) && Promote(old(tree), false) == Raised(tree)
    {
      if !HasAny(tree, Movables()) {
        return true, [];
      }
      if "app" !in tree {
        tree := tree["app" := Dir(map[])];
      } else if tree["app"].File? {
        return false, [];
      }
      ghost var made, app0 := tree, tree["app"].entries;
      assert made["app" := Dir(app0)] == made;
      var names := Movables();
      actions := [];
      ghost var m := (made, app0, actions);
      for i := 0 to |names|
        invariant m == MoveAll(made, app0, names[..i], false)
        invariant tree == m.0["app" := Dir(m.1)] && actions == m.2
      {
        assert names[..i + 1][..i] == names[..i];
        var name, app := names[i], tree["app"].entries;
        NotApp(name);
        if name in tree && name !in app {
          m := (m.0 - {name}, m.1[name := m.0[name]], m.2 + [Moved(false, name)]);
          tree := (tree - {name})["app" := Dir(app[name := tree[name]])];
          actions := actions + [Moved(false, name)];
        }
      }
      assert names[..|names|] == names;
      return true, actions;
    }
  }
}
