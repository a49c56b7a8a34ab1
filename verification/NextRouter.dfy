/** What counts as a Next.js router, and what a repair makes (syte/nextjs_layout.py). */
module NextRouter {
  import opened Wrappers
  import opened FileTree
  import opened NextLayout

  // ----- the recursive globs

  /** There is an entry at this path. */
  predicate EntryAt(d: Entries, path: Parts)
    decreases |path|
  {
    && path != [] && path[0] in d
    && (|path| == 1 || (d[path[0]].Dir? && EntryAt(d[path[0]].entries, path[1..])))
  }

  ghost predicate IsScript(name: string) {
    exists stem: string :: name == stem + ".tsx" || name == stem + ".jsx"
  }

  ghost predicate IsPage(name: string) {
    name in {"page.tsx", "page.jsx"}
  }

  /** Some entry, at whatever depth, has such a name. */
  ghost predicate SomeEntry(d: Entries, named: string -> bool) {
    exists path: Parts :: path != [] && EntryAt(d, path) && named(path[|path| - 1])
  }

  lemma ScriptByName(name: string)
    ensures IsScript(name) <==> EndsWith(name, ".tsx") || EndsWith(name, ".jsx")
  {
    if EndsWith(name, ".tsx") || EndsWith(name, ".jsx") {
      var stem := name[..|name| - 4];
      assert name == stem + name[|name| - 4..];
    }
  }

  lemma EntryHere(d: Entries, name: string, named: string -> bool)
    requires name in d && named(name)
    ensures SomeEntry(d, named)
  {
    assert EntryAt(d, [name]);
  }

  lemma EntryBelow(d: Entries, name: string, named: string -> bool)
    requires name in d && d[name].Dir? && SomeEntry(d[name].entries, named)
    ensures SomeEntry(d, named)
  {
    var path: Parts :| path != [] && EntryAt(d[name].entries, path) && named(path[|path| - 1]);
    assert ([name] + path)[1..] == path;
    assert EntryAt(d, [name] + path);
  }

  lemma EntryFirst(d: Entries, path: Parts, named: string -> bool)
    requires EntryAt(d, path) && named(path[|path| - 1])
    ensures named(path[0]) || (d[path[0]].Dir? && SomeEntry(d[path[0]].entries, named))
  {
    if |path| > 1 {
      assert path[1..][|path| - 2] == path[|path| - 1];
    }
  }

  lemma SomeEntryIff(d: Entries, named: string -> bool)
    ensures SomeEntry(d, named) <==>
        exists n :: n in d && (named(n) || (d[n].Dir? && SomeEntry(d[n].entries, named)))
  {
    if n :| n in d && (named(n) || (d[n].Dir? && SomeEntry(d[n].entries, named))) {
      if named(n) {
        EntryHere(d, n, named);
      } else {
        EntryBelow(d, n, named);
      }
    }
    if path: Parts :| path != [] && EntryAt(d, path) && named(path[|path| - 1]) {
      EntryFirst(d, path, named);
    }
  }

  /** The glob for *.tsx and *.jsx finds exactly the names that end so, at whatever depth. */
  lemma {:induction false} ScriptIff(node: Node)
    requires node.Dir?
    ensures HasScript(node) <==> SomeEntry(node.entries, IsScript)
    decreases node
  {
    var d := node.entries;
    SomeEntryIff(d, IsScript);
    forall n | n in d
      ensures IsScript(n) || (d[n].Dir? && SomeEntry(d[n].entries, IsScript)) <==>
              EndsWith(n, ".tsx") || EndsWith(n, ".jsx") || HasScript(d[n])
    {
      ScriptByName(n);
      if d[n].Dir? {
        ScriptIff(d[n]);
      }
    }
  }

  lemma {:induction false} PageIff(node: Node)
    requires node.Dir?
    ensures HasPage(node) <==> SomeEntry(node.entries, IsPage)
    decreases node
  {
    var d := node.entries;
    SomeEntryIff(d, IsPage);
    forall n | n in d
      ensures IsPage(n) || (d[n].Dir? && SomeEntry(d[n].entries, IsPage)) <==>
              n == "page.tsx" || n == "page.jsx" || HasPage(d[n])
    {
      if d[n].Dir? {
        PageIff(d[n]);
      }
    }
  }

  // ----- the router directories

  predicate IsAppFile(name: string) {
    name in {"page.tsx", "page.jsx", "page.ts", "page.js", "layout.tsx", "layout.jsx"}
  }

  predicate IsPagesFile(name: string) {
    name in {"index.tsx", "index.jsx", "index.ts", "index.js", "_app.tsx", "_app.jsx"}
  }

  /** The directory has an App Router file, or a page at some depth. */
  ghost predicate AppRouter(dir: Entries) {
    (exists n :: n in dir && IsAppFile(n)) || SomeEntry(dir, IsPage)
  }

  /** The directory has an App Router or Pages Router file, or a script at some depth. */
  ghost predicate PagesRouter(dir: Entries) {
    (exists n :: n in dir && (IsAppFile(n) || IsPagesFile(n))) || SomeEntry(dir, IsScript)
  }

  ghost predicate RoutedIn(d: Entries) {
    || (Subdir(d, "app").Some? && AppRouter(Subdir(d, "app").value))
    || (Subdir(d, "pages").Some? && PagesRouter(Subdir(d, "pages").value))
  }

  lemma HasAppFileIff(d: Entries)
    ensures HasAny(d, APP_ROUTER_FILES) <==> exists n :: n in d && IsAppFile(n)
  {
    assert forall i :: 0 <= i < |APP_ROUTER_FILES| ==> IsAppFile(APP_ROUTER_FILES[i]);
    if n :| n in d && IsAppFile(n) {
      var names := APP_ROUTER_FILES;
      assert names[0] == "page.tsx" && names[1] == "page.jsx" && names[2] == "page.ts";
      assert names[3] == "page.js" && names[4] == "layout.tsx" && names[5] == "layout.jsx";
    }
  }

  lemma HasPagesFileIff(d: Entries)
    ensures HasAny(d, PAGES_ROUTER_FILES) <==> exists n :: n in d && IsPagesFile(n)
  {
    assert forall i :: 0 <= i < |PAGES_ROUTER_FILES| ==> IsPagesFile(PAGES_ROUTER_FILES[i]);
    if n :| n in d && IsPagesFile(n) {
      var names := PAGES_ROUTER_FILES;
      assert names[0] == "index.tsx" && names[1] == "index.jsx" && names[2] == "index.ts";
      assert names[3] == "index.js" && names[4] == "_app.tsx" && names[5] == "_app.jsx";
    }
  }

  lemma AppRouterIff(dir: Entries)
    ensures HasRouterFiles(Some(dir), false) <==> AppRouter(dir)
  {
    HasAppFileIff(dir);
    PageIff(Dir(dir));
  }

  lemma PagesRouterIff(dir: Entries)
    ensures HasRouterFiles(Some(dir), true) <==> PagesRouter(dir)
  {
    HasAppFileIff(dir);
    HasPagesFileIff(dir);
    ScriptIff(Dir(dir));
  }

  lemma RoutedInIff(d: Entries)
    ensures HasRouterIn(d) <==> RoutedIn(d)
  {
    var app, pages := Subdir(d, "app"), Subdir(d, "pages");
    if app.Some? {
      AppRouterIff(app.value);
    }
    if pages.Some? {
      PagesRouterIff(pages.value);
    }
  }

  /** A repository has a router exactly when one of app, pages, src/app and src/pages is one. */
  lemma RouterIff(repo: Entries)
    ensures HasRouter(repo) <==> RoutedIn(repo) || (Subdir(repo, "src").Some? && RoutedIn(Subdir(repo, "src").value))
  {
    RoutedInIff(repo);
    if Subdir(repo, "src").Some? {
      RoutedInIff(Subdir(repo, "src").value);
    }
  }

  // ----- what a repair can make of a project

  /** Something here becomes a router once it is moved into the app directory. */
  ghost predicate RouterToMove(d: Entries) {
    || (exists n :: n in d && IsAppFile(n))
    || ("globals.css" in d && d["globals.css"].Dir? && SomeEntry(d["globals.css"].entries, IsPage)
        && (Subdir(d, "app").Some? ==> "globals.css" !in Subdir(d, "app").value))
  }

  lemma MovableIff(name: string)
    ensures name in Movables() <==> IsAppFile(name) || name == "globals.css"
  {
    var names := Movables();
    assert names[0] == "page.tsx" && names[1] == "page.jsx" && names[2] == "page.ts";
    assert names[3] == "page.js" && names[4] == "layout.tsx" && names[5] == "layout.jsx" && names[6] == "globals.css";
    assert |names| == 7;
  }

  lemma HasMovableIff(d: Entries)
    ensures HasAny(d, Movables()) <==> exists n :: n in d && (IsAppFile(n) || n == "globals.css")
  {
    if HasAny(d, Movables()) {
      var i :| 0 <= i < |Movables()| && Movables()[i] in d;
      MovableIff(Movables()[i]);
    }
    if n :| n in d && (IsAppFile(n) || n == "globals.css") {
      MovableIff(n);
      var i :| 0 <= i < |Movables()| && Movables()[i] == n;
    }
  }

  lemma EntryStays(d: Entries, d': Entries, named: string -> bool)
    requires forall n :: n in d ==> n in d' && d'[n] == d[n]
    ensures SomeEntry(d, named) ==> SomeEntry(d', named)
  {
    SomeEntryIff(d, named);
    SomeEntryIff(d', named);
  }

  /** Everything that was a router stays one. */
  lemma RoutedStays(d: Entries, d': Entries)
    requires Promoted(d, d') && RoutedIn(d)
    ensures RoutedIn(d')
  {
    if Subdir(d, "app").Some? && AppRouter(Subdir(d, "app").value) {
      var app, app' := Subdir(d, "app").value, Subdir(d', "app").value;
      EntryStays(app, app', IsPage);
      assert AppRouter(app');
    } else {
      MovableIff("pages");
      assert "pages" in d' && d'["pages"] == d["pages"];
    }
  }

  /** What was to be moved has become one. */
  lemma MovedIsRouted(d: Entries, app': Entries)
    requires Subdir(d, "app").Some? ==> EntriesKept(Subdir(d, "app").value, app')
    requires forall n :: n in d && (IsAppFile(n) || n == "globals.css") ==> n in app'
    requires "globals.css" in d && (Subdir(d, "app").Some? ==> "globals.css" !in Subdir(d, "app").value) ==>
               app'["globals.css"] == d["globals.css"]
    requires RouterToMove(d)
    ensures AppRouter(app')
  {
    if n :| n in d && IsAppFile(n) {
      assert n in app';
    } else {
      EntryBelow(app', "globals.css", IsPage);
    }
  }

  ghost predicate EntriesKept(d: Entries, d': Entries) {
    forall n :: n in d ==> n in d' && d'[n] == d[n]
  }

  lemma PromotedIsRouted(d: Entries, d': Entries)
    requires Promoted(d, d')
    requires forall n :: n in Movables() && n in d ==> n in Subdir(d', "app").value
    ensures RouterToMove(d) ==> RoutedIn(d')
  {
    if RouterToMove(d) {
      forall n | n in d && (IsAppFile(n) || n == "globals.css")
        ensures n in Subdir(d', "app").value
      {
        MovableIff(n);
      }
      MovedIsRouted(d, Subdir(d', "app").value);
    }
  }

  /** And nothing else has. */
  lemma RoutedWasThere(d: Entries, d': Entries)
    requires Promoted(d, d') && RoutedIn(d')
    ensures RoutedIn(d) || RouterToMove(d)
  {
    if AppRouter(Subdir(d', "app").value) {
      MovedWasThere(d, if Subdir(d, "app").Some? then Subdir(d, "app").value else map[], Subdir(d', "app").value);
    }
  }

  lemma MovedWasThere(d: Entries, app: Entries, app': Entries)
    requires Subdir(d, "app").Some? ==> Subdir(d, "app").value == app
    requires forall n :: n in app ==> n in app' && app'[n] == app[n]
    requires forall n :: n in app' && n !in app ==> n in d && n in Movables() && app'[n] == d[n]
    requires AppRouter(app')
    ensures AppRouter(app) || RouterToMove(d)
  {
    if n :| n in app' && IsAppFile(n) {
      assert n in app || n in d;
    } else {
      SomeEntryIff(app', IsPage);
      SomeEntryIff(app, IsPage);
      var n :| n in app' && (IsPage(n) || (app'[n].Dir? && SomeEntry(app'[n].entries, IsPage)));
      MovableIff(n);
      assert n in app || n in d;
    }
  }

  lemma PromotedRouterIff(d: Entries, fromSrc: bool)
    requires Promote(d, fromSrc).Done?
    ensures HasRouterIn(Promote(d, fromSrc).tree) <==> HasRouterIn(d) || RouterToMove(d)
  {
    var d' := Promote(d, fromSrc).tree;
    RoutedInIff(d);
    RoutedInIff(d');
    HasMovableIff(d);
    if HasAny(d, Movables()) {
      PromoteMoves(d, fromSrc);
      PromotedIsRouted(d, d');
      if RoutedIn(d) {
        RoutedStays(d, d');
      }
      if RoutedIn(d') {
        RoutedWasThere(d, d');
      }
    }
  }

  /** The root stage and the stage for src leave a router exactly when there was one, or there is
      something to move that becomes one. */
  lemma MovedRouterIff(repo: Entries)
    requires Promote(repo, false).Done? && PromoteSrc(Promote(repo, false).tree).Done?
    ensures HasRouter(PromoteSrc(Promote(repo, false).tree).tree) <==>
      || HasRouter(repo) || RouterToMove(repo)
      || (Subdir(repo, "src").Some? && RouterToMove(Subdir(repo, "src").value))
    ensures HasComponents(PromoteSrc(Promote(repo, false).tree).tree) <==> HasComponents(repo)
  {
    var t1 := Promote(repo, false).tree;
    KeepsAside(repo, false);
    PromotedRouterIff(repo, false);
    if Subdir(t1, "src").Some? && !HasRouter(t1) {
      var src := Subdir(t1, "src").value;
      KeepsAside(src, true);
      PromotedRouterIff(src, true);
    }
  }

  /** A repaired project is accepted exactly when it had a router; or has an App Router file at the
      root or in src, or a directory called globals.css there with a page in it that can be moved;
      or has components. */
  lemma AcceptedIff(repo: Entries)
    requires Fix(repo, true).Done?
    ensures Accepts(Fix(repo, true).tree, true) <==>
      || HasRouter(repo) || RouterToMove(repo) || HasComponents(repo)
      || (Subdir(repo, "src").Some? && RouterToMove(Subdir(repo, "src").value))
  {
    if !HasRouter(repo) {
      var t1 := Promote(repo, false).tree;
      PromotedRouterIff(repo, false);
      KeepsAside(repo, false);
      if PromoteSrc(t1).Done? {
        MovedRouterIff(repo);
        var t2 := PromoteSrc(t1).tree;
        if !HasRouter(t2) && HasComponents(t2) {
          ScaffoldRoutes(t2);
        }
      }
    }
  }

  /** A project that is not Next.js, or that has a router, is left alone. */
  lemma RoutedIsLeftAlone(repo: Entries, isNext: bool)
    requires !isNext || RoutedIn(repo) || (Subdir(repo, "src").Some? && RoutedIn(Subdir(repo, "src").value))
    ensures Fix(repo, isNext) == Done(repo, [])
  {
    RouterIff(repo);
  }

  // ----- what a repair reports

  /** The move loop reports exactly the names that it moves. */
  lemma {:induction false} MovesAreReported(d: Entries, app: Entries, names: seq<string>, fromSrc: bool, a: Action)
    ensures a in MoveAll(d, app, names, fromSrc).2 <==>
        a.Moved? && a.fromSrc == fromSrc && a.name in names && a.name in d && a.name !in app
  {
    if names != [] {
      var front, name := names[..|names| - 1], names[|names| - 1];
      MovesAreReported(d, app, front, fromSrc, a);
      MoveAllMoves(d, app, front, fromSrc);
      assert names == front + [name];
    }
  }

  /** A stage reports exactly the App Router files and style sheets that were here and free there. */
  lemma PromotionIsReported(d: Entries, fromSrc: bool, a: Action)
    requires Promote(d, fromSrc).Done?
    ensures a in Promote(d, fromSrc).actions <==>
      && a.Moved? && a.fromSrc == fromSrc && (IsAppFile(a.name) || a.name == "globals.css") && a.name in d
      && (Subdir(d, "app").Some? ==> a.name !in Subdir(d, "app").value)
  {
    HasMovableIff(d);
    if a.Moved? {
      MovableIff(a.name);
    }
    if HasAny(d, Movables()) {
      var made := MakeDir(d, "app").value;
      MovesAreReported(made, made["app"].entries, Movables(), fromSrc, a);
    }
  }

  /** Scaffolding adds the layout and the page that are missing, says so, and changes nothing else. */
  lemma ScaffoldMakes(repo: Entries)
    requires Scaffold(repo).Done?
    ensures var t, app := Scaffold(repo).tree, if Subdir(repo, "app").Some? then Subdir(repo, "app").value else map[];
      && t.Keys == repo.Keys + {"app"} && Subdir(t, "app").Some?
      && (forall n :: n in repo && n != "app" ==> t[n] == repo[n])
      && Subdir(t, "app").value.Keys == app.Keys + {"layout.tsx", "page.tsx"}
      && (forall n :: n in app ==> Subdir(t, "app").value[n] == app[n])
      && ("layout.tsx" !in app ==> Subdir(t, "app").value["layout.tsx"] == File(MINIMAL_LAYOUT))
      && ("page.tsx" !in app ==> Subdir(t, "app").value["page.tsx"] == File(MINIMAL_PAGE))
      && Scaffold(repo).actions == (if "layout.tsx" in app then [] else [Created("layout.tsx")])
                                   + (if "page.tsx" in app then [] else [Created("page.tsx")])
  {
  }
}
