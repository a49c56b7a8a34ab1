/** Replacing a project's source by a ZIP archive (syte/project_intake.py). */
module ZipIntake {
  import opened Wrappers
  import opened FileTree

  const MAX_ARCHIVE_BYTES := 75 * 1024 * 1024
  const MAX_ARCHIVE_FILES := 12000
  const MAX_UNCOMPRESSED_BYTES := 450 * 1024 * 1024
  const MACOSX := "__MACOSX"

  /** An archive member: `size` is the recorded size, `link` says that it is a symbolic link, and
      `data` is None when its content cannot be read. */
  datatype Member = Member(name: string, size: nat, link: bool, data: Option<string>) {
    predicate IsDir() {
      name != "" && name[|name| - 1] == '/'
    }
  }

  // ----- member paths

  function Split(s: string): (parts: seq<string>)
    ensures parts != []
  {
    if s == "" then [""]
    else
      var rest := Split(s[1..]);
      if s[0] == '/' then [""] + rest else [[s[0]] + rest[0]] + rest[1..]
  }

  /** PurePosixPath drops empty and "." components. */
  function Proper(parts: seq<string>): (r: Parts)
    ensures forall i :: 0 <= i < |r| ==> r[i] != "" && r[i] != "." && r[i] in parts
  {
    if parts == [] then []
    else (if parts[0] == "" || parts[0] == "." then [] else [parts[0]]) + Proper(parts[1..])
  }

  /** `_safe_relative`: the path components of a member name, or None for an unsafe one. */
  function SafeParts(name: string): Option<Parts> {
    if name == "" || '\0' in name || '\\' in name || name[0] == '/' || ".." in Proper(Split(name)) then None
    else Some(Proper(Split(name)))
  }

  /** No component of an accepted path leads upwards or nowhere, so the path stays inside. */
  lemma SafePartsStayInside(name: string)
    requires SafeParts(name).Some?
    ensures forall i :: 0 <= i < |SafeParts(name).value| ==>
      var part := SafeParts(name).value[i]; part != "" && part != "." && part != ".."
  {
    var parts := SafeParts(name).value;
    assert forall i :: 0 <= i < |parts| ==> parts[i] in parts;
  }

  /** Following the components from a directory, where ".." goes up and "." stays. */
  function Resolve(dir: Parts, parts: Parts): Parts
    decreases |parts|
  {
    if parts == [] then dir
    else
      var next := if parts[0] == ".." then (if dir == [] then [] else dir[..|dir| - 1])
                  else if parts[0] == "." || parts[0] == "" then dir
                  else dir + [parts[0]];
      Resolve(next, parts[1..])
  }

  lemma {:induction false} PlainPartsResolve(dir: Parts, parts: Parts)
    requires forall i :: 0 <= i < |parts| ==> parts[i] != "" && parts[i] != "." && parts[i] != ".."
    ensures Resolve(dir, parts) == dir + parts
    decreases |parts|
  {
    if parts != [] {
      PlainPartsResolve(dir + [parts[0]], parts[1..]);
      assert parts == [parts[0]] + parts[1..];
    } else {
      assert dir + parts == dir;
    }
  }

  /** What an accepted member resolves to from the staging directory lies below it, with the common
      root dropped or not; so the check of the resolved path in the member loop never fails. */
  lemma TargetIsBelowStaging(staging: Parts, name: string, prefix: string)
    requires SafeParts(name).Some?
    ensures var path := Stripped(SafeParts(name).value, prefix);
      && Resolve(staging, path) == staging + path
      && (path != [] ==> staging < Resolve(staging, path))
  {
    SafePartsStayInside(name);
    var parts := SafeParts(name).value;
    var path := Stripped(parts, prefix);
    forall i | 0 <= i < |path|
      ensures path[i] != "" && path[i] != "." && path[i] != ".."
    {
      assert path[i] == parts[i + |parts| - |path|];
    }
    PlainPartsResolve(staging, path);
  }

  // ----- the common root

  predicate SafeFiles(members: seq<Member>) {
    forall i :: 0 <= i < |members| && !members[i].IsDir() ==> SafeParts(members[i].name).Some?
  }

  /** Every file lies below the root directory, and there is one. */
  ghost predicate CommonRoot(members: seq<Member>, root: string)
    requires SafeFiles(members)
  {
    && (exists i :: 0 <= i < |members| && !members[i].IsDir() && SafeParts(members[i].name).value != [])
    && (forall i :: 0 <= i < |members| && !members[i].IsDir() && SafeParts(members[i].name).value != [] ==>
          var parts := SafeParts(members[i].name).value; parts[0] == root && |parts| > 1)
  }

  /** Some file lies below, or is, the entry r. */
  ghost predicate StartsOne(members: seq<Member>, r: string)
    requires SafeFiles(members)
  {
    exists i :: 0 <= i < |members| && !members[i].IsDir() && SafeParts(members[i].name).value != []
                && SafeParts(members[i].name).value[0] == r
  }

  /** These are the first components of the files' paths. */
  ghost predicate RootsOf(members: seq<Member>, roots: set<string>)
    requires SafeFiles(members)
  {
    && (forall j :: 0 <= j < |members| && !members[j].IsDir() && SafeParts(members[j].name).value != [] ==>
          SafeParts(members[j].name).value[0] in roots)
    && (forall r :: r in roots ==> StartsOne(members, r))
  }

  /** The first loop of `_archive_root_prefix`; None when it raises. */
  method CollectRoots(members: seq<Member>) returns (found: Option<set<string>>)
    ensures found.None? <==> !SafeFiles(members)
    ensures found.Some? ==> RootsOf(members, found.value)
  {
    var roots: set<string> := {};
    for i := 0 to |members|
      invariant SafeFiles(members[..i]) && RootsOf(members[..i], roots)
    {
      if members[i].IsDir() {
        SkipRoot(members, i, roots);
        continue;
      }
      var parts := SafeParts(members[i].name);
      if parts.None? {
        return None;
      }
      if parts.value == [] {
        SkipRoot(members, i, roots);
      } else {
        AddRoot(members, i, roots);
        roots := roots + {parts.value[0]};
      }
    }
    assert members[..|members|] == members;
    return Some(roots);
  }

  lemma SkipRoot(members: seq<Member>, i: nat, roots: set<string>)
    requires i < |members| && SafeFiles(members[..i]) && RootsOf(members[..i], roots)
    requires members[i].IsDir() || SafeParts(members[i].name) == Some([])
    ensures SafeFiles(members[..i + 1]) && RootsOf(members[..i + 1], roots)
  {
    var more := members[..i + 1];
    forall j | 0 <= j <= i && !more[j].IsDir()
      ensures SafeParts(more[j].name).Some?
      ensures SafeParts(more[j].name).value != [] ==> SafeParts(more[j].name).value[0] in roots
    {
      if j < i {
        assert more[j] == members[..i][j];
      }
    }
    forall r | r in roots
      ensures StartsOne(more, r)
    {
      StartsLater(members, i, r);
    }
  }

  lemma AddRoot(members: seq<Member>, i: nat, roots: set<string>)
    requires i < |members| && SafeFiles(members[..i]) && RootsOf(members[..i], roots)
    requires !members[i].IsDir() && SafeParts(members[i].name).Some? && SafeParts(members[i].name).value != []
    ensures SafeFiles(members[..i + 1]) && RootsOf(members[..i + 1], roots + {SafeParts(members[i].name).value[0]})
  {
    var more, root := members[..i + 1], SafeParts(members[i].name).value[0];
    forall j | 0 <= j <= i && !more[j].IsDir()
      ensures SafeParts(more[j].name).Some?
      ensures SafeParts(more[j].name).value != [] ==> SafeParts(more[j].name).value[0] in roots + {root}
    {
      if j < i {
        assert more[j] == members[..i][j];
      }
    }
    forall r | r in roots + {root}
      ensures StartsOne(more, r)
    {
      if r in roots {
        StartsLater(members, i, r);
      } else {
        StartsHere(more, i);
      }
    }
  }

  lemma StartsHere(members: seq<Member>, i: nat)
    requires SafeFiles(members) && i < |members| && !members[i].IsDir() && SafeParts(members[i].name).value != []
    ensures StartsOne(members, SafeParts(members[i].name).value[0])
  {
  }

  lemma StartsLater(members: seq<Member>, i: nat, r: string)
    requires i < |members| && SafeFiles(members[..i]) && SafeFiles(members[..i + 1]) && StartsOne(members[..i], r)
    ensures StartsOne(members[..i + 1], r)
  {
    var j :| 0 <= j < i && !members[..i][j].IsDir() && SafeParts(members[..i][j].name).value != []
             && SafeParts(members[..i][j].name).value[0] == r;
    assert members[..i + 1][j] == members[..i][j];
  }

  /** `_archive_root_prefix`: the common root, or "" when there is none; None when it raises. */
  method ArchiveRootPrefix(members: seq<Member>) returns (prefix: Option<string>)
    ensures prefix.None? <==> !SafeFiles(members)
    ensures prefix.Some? ==> IsPrefix(members, prefix.value)
  {
    var found := CollectRoots(members);
    if found.None? {
      return None;
    }
    var roots := found.value;
    if |roots| != 1 {
      forall root | root != ""
        ensures !CommonRoot(members, root)
      {
        OnlyRoot(members, roots, root);
      }
      return Some("");
    }
    var root :| root in roots;
    OneElement(roots, root);
    for i := 0 to |members|
      invariant forall j :: 0 <= j < i && !members[j].IsDir() ==> |SafeParts(members[j].name).value| != 1
    {
      if !members[i].IsDir() && |SafeParts(members[i].name).value| == 1 {
        return Some("");
      }
    }
    RootIsCommon(members, root);
    return Some(root);
  }

  lemma RootIsCommon(members: seq<Member>, root: string)
    requires SafeFiles(members) && RootsOf(members, {root})
    requires forall j :: 0 <= j < |members| && !members[j].IsDir() ==> |SafeParts(members[j].name).value| != 1
    ensures CommonRoot(members, root) && root != ""
  {
    assert StartsOne(members, root);
    var i :| 0 <= i < |members| && !members[i].IsDir() && SafeParts(members[i].name).value != []
             && SafeParts(members[i].name).value[0] == root;
    SafePartsStayInside(members[i].name);
  }

  /** The prefix is what _archive_root_prefix stands for. */
  ghost predicate IsPrefix(members: seq<Member>, prefix: string)
    requires SafeFiles(members)
  {
    if prefix == "" then forall root :: root != "" ==> !CommonRoot(members, root) else CommonRoot(members, prefix)
  }

  /** The set of first components has one element when there is a common root. */
  lemma OnlyRoot(members: seq<Member>, roots: set<string>, root: string)
    requires SafeFiles(members) && RootsOf(members, roots)
    ensures CommonRoot(members, root) ==> |roots| == 1
  {
    if CommonRoot(members, root) {
      assert roots == {root};
    }
  }

  lemma OneElement(s: set<string>, x: string)
    requires |s| == 1 && x in s
    ensures s == {x}
  {
    assert |s - {x}| == 0;
    assert s == {x} + (s - {x});
  }

  function Stripped(parts: Parts, prefix: string): Parts {
    if prefix != "" && parts != [] && parts[0] == prefix then parts[1..] else parts
  }

  /** The path of a file member. */
  function PathOf(members: seq<Member>, i: nat): Parts
    requires SafeFiles(members) && i < |members| && !members[i].IsDir()
  {
    SafeParts(members[i].name).value
  }

  lemma BelowRoot(members: seq<Member>, root: string, i: nat)
    requires SafeFiles(members) && CommonRoot(members, root) && i < |members| && !members[i].IsDir()
    requires PathOf(members, i) != []
    ensures PathOf(members, i) == [root] + PathOf(members, i)[1..] && |PathOf(members, i)| > 1
  {
  }

  /** Dropping the common root leaves every file path non-empty, and different ones different. */
  lemma StrippingIsInjective(members: seq<Member>, prefix: string, i: nat, j: nat)
    requires SafeFiles(members) && (prefix != "" ==> CommonRoot(members, prefix))
    requires i < |members| && j < |members| && !members[i].IsDir() && !members[j].IsDir()
    requires PathOf(members, i) != [] && PathOf(members, j) != []
    ensures var p, q := PathOf(members, i), PathOf(members, j);
      Stripped(p, prefix) != [] && (Stripped(p, prefix) == Stripped(q, prefix) ==> p == q)
  {
    if prefix != "" {
      BelowRoot(members, prefix, i);
      BelowRoot(members, prefix, j);
    }
  }

  // ----- extraction

  /** The path that a member is extracted to; None when it is left out. */
  function Target(parts: Parts, prefix: string): Option<Parts> {
    var path := Stripped(parts, prefix);
    if path == [] || path[0] == MACOSX then None else Some(path)
  }

  /** Is the member a file that is extracted? */
  predicate Extracted(m: Member, prefix: string) {
    !m.IsDir() && SafeParts(m.name).Some? && Target(SafeParts(m.name).value, prefix).Some?
  }

  /** One member: the new tree, or None when the archive is rejected for it. */
  function AddMember(d: Entries, m: Member, prefix: string): Option<Entries> {
    var parts := SafeParts(m.name);
    if parts.None? || m.link then None
    else
      var target := Target(parts.value, prefix);
      if target.None? then Some(d)
      else if m.IsDir() then MakePath(d, target.value)
      else if m.data.None? then None
      else WriteAt(d, target.value, m.data.value)
  }

  function AddAll(members: seq<Member>, prefix: string): Option<Entries> {
    if members == [] then Some(map[])
    else
      var before := AddAll(members[..|members| - 1], prefix);
      if before.None? then None else AddMember(before.value, members[|members| - 1], prefix)
  }

  function FileCount(members: seq<Member>, prefix: string): nat {
    if members == [] then 0
    else FileCount(members[..|members| - 1], prefix) + if Extracted(members[|members| - 1], prefix) then 1 else 0
  }

  function ByteCount(members: seq<Member>, prefix: string): nat {
    if members == [] then 0
    else
      var last := members[|members| - 1];
      ByteCount(members[..|members| - 1], prefix) + if Extracted(last, prefix) then last.size else 0
  }

  function TotalSize(members: seq<Member>): nat {
    if members == [] then 0 else TotalSize(members[..|members| - 1]) + members[|members| - 1].size
  }

  /** The last extracted file member with this path. */
  function LastWriter(members: seq<Member>, prefix: string, path: Parts): Option<Member> {
    if members == [] then None
    else
      var last := members[|members| - 1];
      if Extracted(last, prefix) && Target(SafeParts(last.name).value, prefix) == Some(path) then Some(last)
      else LastWriter(members[..|members| - 1], prefix, path)
  }

  /** The extracted tree has exactly the files of the archive: at every path the content of the last
      member with that path, and no file at any other path. */
  lemma {:induction false} TreeHasTheFiles(members: seq<Member>, prefix: string, path: Parts)
    requires AddAll(members, prefix).Some?
    ensures FileAt(AddAll(members, prefix).value, path) ==
      match LastWriter(members, prefix, path) case None => None case Some(m) => m.data
  {
    if members == [] {
      NoFilesInEmpty(path);
    } else {
      var last := members[|members| - 1];
      var before := AddAll(members[..|members| - 1], prefix).value;
      TreeHasTheFiles(members[..|members| - 1], prefix, path);
      var target := Target(SafeParts(last.name).value, prefix);
      if target.Some? {
        if last.IsDir() {
          MakePathKeepsFiles(before, target.value, path);
        } else {
          WriteAtWrites(before, target.value, last.data.value, path);
        }
      }
    }
  }

  /** The path that a member with a safe name is extracted to. */
  function TargetOf(m: Member, prefix: string): Option<Parts> {
    if SafeParts(m.name).None? then None else Target(SafeParts(m.name).value, prefix)
  }

  /** A target is never empty, is not in __MACOSX, and is the member's path behind the prefix. */
  lemma TargetIs(parts: Parts, prefix: string, path: Parts)
    ensures Target(parts, prefix) == Some(path) <==>
      && path != [] && path[0] != "__MACOSX"
      && (if prefix != "" && [prefix] <= parts then parts == [prefix] + path else parts == path)
  {
    if parts != [] && parts[0] == prefix {
      assert parts == [prefix] + parts[1..];
    }
  }

  /** The member has to make q a directory. */
  predicate Makes(m: Member, prefix: string, q: Parts) {
    TargetOf(m, prefix).Some? && (q < TargetOf(m, prefix).value || (m.IsDir() && q == TargetOf(m, prefix).value))
  }

  predicate Writes(m: Member, prefix: string, q: Parts) {
    !m.IsDir() && TargetOf(m, prefix) == Some(q)
  }

  ghost predicate SomeMakes(members: seq<Member>, prefix: string, q: Parts) {
    exists i :: 0 <= i < |members| && Makes(members[i], prefix, q)
  }

  ghost predicate SomeWrites(members: seq<Member>, prefix: string, q: Parts) {
    exists i :: 0 <= i < |members| && Writes(members[i], prefix, q)
  }

  /** The members want a file and a directory at the same path. */
  ghost predicate Clash(a: Member, b: Member, prefix: string) {
    exists q :: Writes(a, prefix, q) && Makes(b, prefix, q)
  }

  ghost predicate NoClash(members: seq<Member>, prefix: string) {
    forall i, j :: 0 <= i < |members| && 0 <= j < |members| ==> !Clash(members[i], members[j], prefix)
  }

  /** A member that is no link, has a safe name, and can be read if it has to be. */
  predicate Sound(m: Member, prefix: string) {
    SafeParts(m.name).Some? && !m.link && (!m.IsDir() && TargetOf(m, prefix).Some? ==> m.data.Some?)
  }

  ghost predicate AllSound(members: seq<Member>, prefix: string) {
    forall i :: 0 <= i < |members| ==> Sound(members[i], prefix)
  }

  lemma SomeSnoc(front: seq<Member>, last: Member, prefix: string, q: Parts)
    ensures SomeMakes(front + [last], prefix, q) <==> SomeMakes(front, prefix, q) || Makes(last, prefix, q)
    ensures SomeWrites(front + [last], prefix, q) <==> SomeWrites(front, prefix, q) || Writes(last, prefix, q)
  {
    var all := front + [last];
    assert all[|front|] == last && forall i :: 0 <= i < |front| ==> all[i] == front[i];
  }

  /** The extracted tree has exactly the files and the directories that some member asks for. */
  lemma {:induction false} TreeHasWhatIsAskedFor(members: seq<Member>, prefix: string, q: Parts)
    requires AddAll(members, prefix).Some?
    ensures FileAt(AddAll(members, prefix).value, q).Some? <==> SomeWrites(members, prefix, q)
    ensures DirAt(AddAll(members, prefix).value, q) <==> q == [] || SomeMakes(members, prefix, q)
  {
    if members == [] {
      NoFilesInEmpty(q);
      NoDirsInEmpty(q);
    } else {
      var front, last := members[..|members| - 1], members[|members| - 1];
      assert members == front + [last];
      SomeSnoc(front, last, prefix, q);
      TreeHasWhatIsAskedFor(front, prefix, q);
      var before := AddAll(front, prefix).value;
      var target := TargetOf(last, prefix);
      if target.Some? {
        if last.IsDir() {
          MakePathKeepsFiles(before, target.value, q);
          MakePathDirs(before, target.value, q);
        } else {
          WriteAtWrites(before, target.value, last.data.value, q);
          WriteAtDirs(before, target.value, last.data.value, q);
        }
      }
    }
  }

  /** A file is on the way to a path exactly when an earlier member writes one there. */
  lemma OnTheWayIff(members: seq<Member>, prefix: string, path: Parts, depth: nat)
    requires AddAll(members, prefix).Some? && depth <= |path|
    ensures FileOnTheWay(AddAll(members, prefix).value, path, depth) <==>
        exists k :: 1 <= k <= depth && SomeWrites(members, prefix, path[..k])
  {
    forall k | 1 <= k <= depth
      ensures FileAt(AddAll(members, prefix).value, path[..k]).Some? <==> SomeWrites(members, prefix, path[..k])
    {
      TreeHasWhatIsAskedFor(members, prefix, path[..k]);
    }
  }

  ghost predicate NoClashWith(members: seq<Member>, m: Member, prefix: string) {
    forall i :: 0 <= i < |members| ==> !Clash(members[i], m, prefix) && !Clash(m, members[i], prefix)
  }

  lemma NoClashSnoc(front: seq<Member>, last: Member, prefix: string)
    ensures NoClash(front + [last], prefix) <==> NoClash(front, prefix) && NoClashWith(front, last, prefix)
  {
    var all := front + [last];
    assert all[|front|] == last && forall i :: 0 <= i < |front| ==> all[i] == front[i];
    assert !Clash(last, last, prefix);
    if NoClash(all, prefix) {
      forall i, j | 0 <= i < |front| && 0 <= j < |front|
        ensures !Clash(front[i], front[j], prefix)
      {
        assert !Clash(all[i], all[j], prefix);
      }
      forall i | 0 <= i < |front|
        ensures !Clash(front[i], last, prefix) && !Clash(last, front[i], prefix)
      {
        assert !Clash(all[i], all[|front|], prefix) && !Clash(all[|front|], all[i], prefix);
      }
    }
  }

  lemma WrittenClashes(members: seq<Member>, m: Member, prefix: string, q: Parts)
    requires Makes(m, prefix, q)
    ensures SomeWrites(members, prefix, q) ==> !NoClashWith(members, m, prefix)
  {
    if i :| 0 <= i < |members| && Writes(members[i], prefix, q) {
      assert Clash(members[i], m, prefix);
    }
  }

  lemma MadeClashes(members: seq<Member>, m: Member, prefix: string, q: Parts)
    ensures SomeMakes(members, prefix, q) && Writes(m, prefix, q) ==> !NoClashWith(members, m, prefix)
  {
    if i :| 0 <= i < |members| && Makes(members[i], prefix, q) {
      if Writes(m, prefix, q) {
        assert Clash(m, members[i], prefix);
      }
    }
  }

  /** Nothing with this target clashes with the members. */
  lemma ClashAt(members: seq<Member>, m: Member, prefix: string, path: Parts)
    requires TargetOf(m, prefix) == Some(path)
    ensures m.IsDir() ==>
        (NoClashWith(members, m, prefix) <==> !exists k :: 1 <= k <= |path| && SomeWrites(members, prefix, path[..k]))
    ensures !m.IsDir() ==>
        (NoClashWith(members, m, prefix) <==>
          && !SomeMakes(members, prefix, path)
          && !exists k :: 1 <= k <= |path| - 1 && SomeWrites(members, prefix, path[..k]))
  {
    var depth := if m.IsDir() then |path| else |path| - 1;
    if !NoClashWith(members, m, prefix) {
      var i :| 0 <= i < |members| && (Clash(members[i], m, prefix) || Clash(m, members[i], prefix));
      if Clash(members[i], m, prefix) {
        var q :| Writes(members[i], prefix, q) && Makes(m, prefix, q);
        assert q == path[..|q|] && q != [];
        assert SomeWrites(members, prefix, path[..|q|]);
      }
    }
    forall k | 1 <= k <= depth
      ensures SomeWrites(members, prefix, path[..k]) ==> !NoClashWith(members, m, prefix)
    {
      assert path[..k] <= path;
      WrittenClashes(members, m, prefix, path[..k]);
    }
    MadeClashes(members, m, prefix, path);
  }

  /** One more member is added exactly when it is sound and clashes with none of the earlier ones. */
  lemma AddMemberIff(front: seq<Member>, last: Member, prefix: string)
    requires AddAll(front, prefix).Some?
    ensures AddMember(AddAll(front, prefix).value, last, prefix).Some? <==>
        Sound(last, prefix) && NoClashWith(front, last, prefix)
  {
    var before, target := AddAll(front, prefix).value, TargetOf(last, prefix);
    if target.Some? {
      var path := target.value;
      ClashAt(front, last, prefix, path);
      if last.IsDir() {
        MakePathIff(before, path);
        OnTheWayIff(front, prefix, path, |path|);
      } else if last.data.Some? {
        WriteAtIff(before, path, last.data.value);
        OnTheWayIff(front, prefix, path, |path| - 1);
        TreeHasWhatIsAskedFor(front, prefix, path);
      }
    }
  }

  lemma AllSoundSnoc(front: seq<Member>, last: Member, prefix: string)
    ensures AllSound(front + [last], prefix) <==> AllSound(front, prefix) && Sound(last, prefix)
  {
    var all := front + [last];
    assert all[|front|] == last && forall i :: 0 <= i < |front| ==> all[i] == front[i];
  }

  /** In whatever order they come, the members can be expanded exactly when each has a safe name, is
      no link and can be read, and no two want a file and a directory at one path. */
  lemma {:induction false} ExpandsIff(members: seq<Member>, prefix: string)
    ensures AddAll(members, prefix).Some? <==> AllSound(members, prefix) && NoClash(members, prefix)
  {
    if members != [] {
      var front, last := members[..|members| - 1], members[|members| - 1];
      assert members == front + [last];
      ExpandsIff(front, prefix);
      AllSoundSnoc(front, last, prefix);
      NoClashSnoc(front, last, prefix);
      if AddAll(front, prefix).Some? {
        AddMemberIff(front, last, prefix);
      }
    }
  }

  lemma {:induction false} CountIsPositiveIff(members: seq<Member>, prefix: string)
    ensures FileCount(members, prefix) > 0 <==> exists q :: SomeWrites(members, prefix, q)
  {
    if members != [] {
      var front, last := members[..|members| - 1], members[|members| - 1];
      assert members == front + [last];
      CountIsPositiveIff(front, prefix);
      forall q
        ensures SomeWrites(members, prefix, q) <==> SomeWrites(front, prefix, q) || Writes(last, prefix, q)
      {
        SomeSnoc(front, last, prefix, q);
      }
      if Extracted(last, prefix) {
        assert Writes(last, prefix, TargetOf(last, prefix).value);
      }
    }
  }

  // ----- counting by the stored paths

  /** File members that lie outside __MACOSX as the archive spells their paths. */
  function OutsideCount(members: seq<Member>): nat {
    if members == [] then 0
    else OutsideCount(members[..|members| - 1]) + if Outside(members[|members| - 1]) then 1 else 0
  }

  predicate Outside(m: Member) {
    !m.IsDir() && SafeParts(m.name).Some? && SafeParts(m.name).value != [] && SafeParts(m.name).value[0] != MACOSX
  }

  predicate NestedMac(m: Member) {
    !m.IsDir() && SafeParts(m.name).Some? && |SafeParts(m.name).value| > 1 && SafeParts(m.name).value[1] == MACOSX
  }

  /** The filter looks at the path after the common root was dropped.  So for an archive that yields
      any files, the returned count is the number of file members outside __MACOSX exactly when no
      root was dropped, or the dropped root was not __MACOSX itself and no file has __MACOSX just
      below it. */
  lemma CountIsOutsideIff(members: seq<Member>, prefix: string)
    requires SafeFiles(members) && (prefix != "" ==> CommonRoot(members, prefix))
    requires FileCount(members, prefix) > 0
    ensures FileCount(members, prefix) == OutsideCount(members) <==>
      prefix == "" || (prefix != MACOSX && forall i :: 0 <= i < |members| ==> !NestedMac(members[i]))
  {
    if prefix == "" {
      CountsWithoutRoot(members);
    } else if prefix == MACOSX {
      CountsUnderMac(members);
    } else {
      CountsUnderRoot(members, prefix);
    }
  }

  lemma {:induction false} CountsWithoutRoot(members: seq<Member>)
    ensures FileCount(members, "") == OutsideCount(members)
  {
    if members != [] {
      CountsWithoutRoot(members[..|members| - 1]);
    }
  }

  ghost predicate AllBelow(members: seq<Member>, root: string) {
    forall i :: 0 <= i < |members| && !members[i].IsDir() ==> IsBelow(members[i], root)
  }

  predicate IsBelow(m: Member, root: string) {
    SafeParts(m.name).Some? && SafeParts(m.name).value != [] ==>
      SafeParts(m.name).value[0] == root && |SafeParts(m.name).value| > 1
  }

  lemma {:induction false} CountsUnderMac(members: seq<Member>)
    requires AllBelow(members, MACOSX)
    ensures OutsideCount(members) == 0
  {
    if members != [] {
      CountsUnderMac(members[..|members| - 1]);
    }
  }

  lemma {:induction false} CountsUnderRoot(members: seq<Member>, root: string)
    requires root != "" && root != MACOSX && AllBelow(members, root)
    ensures FileCount(members, root) <= OutsideCount(members)
    ensures FileCount(members, root) == OutsideCount(members) <==>
        forall i :: 0 <= i < |members| ==> !NestedMac(members[i])
  {
    if members != [] {
      CountsUnderRoot(members[..|members| - 1], root);
    }
  }

  /** The same for the bytes. */
  function OutsideBytes(members: seq<Member>): nat {
    if members == [] then 0
    else
      var last := members[|members| - 1];
      OutsideBytes(members[..|members| - 1]) + if Outside(last) then last.size else 0
  }

  ghost predicate AllEmpty(members: seq<Member>, chosen: Member -> bool) {
    forall i :: 0 <= i < |members| && chosen(members[i]) ==> members[i].size == 0
  }

  /** The returned byte sum is that of the file members outside __MACOSX exactly when no root was
      dropped; or __MACOSX itself was dropped and every extracted file is empty; or another root was
      dropped and every file with __MACOSX just below it is empty. */
  lemma BytesAreOutsideIff(members: seq<Member>, prefix: string)
    requires SafeFiles(members) && (prefix != "" ==> CommonRoot(members, prefix))
    ensures ByteCount(members, prefix) == OutsideBytes(members) <==>
      || prefix == ""
      || (prefix == MACOSX && AllEmpty(members, m => Extracted(m, prefix)))
      || (prefix != "" && prefix != MACOSX && AllEmpty(members, NestedMac))
  {
    if prefix == "" {
      BytesWithoutRoot(members);
    } else if prefix == MACOSX {
      BytesUnderMac(members);
    } else {
      BytesUnderRoot(members, prefix);
    }
  }

  lemma {:induction false} BytesWithoutRoot(members: seq<Member>)
    ensures ByteCount(members, "") == OutsideBytes(members)
  {
    if members != [] {
      BytesWithoutRoot(members[..|members| - 1]);
    }
  }

  lemma BytesUnderMac(members: seq<Member>)
    requires AllBelow(members, MACOSX)
    ensures OutsideBytes(members) == 0
    ensures ByteCount(members, MACOSX) == 0 <==> AllEmpty(members, m => Extracted(m, MACOSX))
  {
    NoneOutside(members);
    CountedAreEmpty(members, MACOSX);
  }

  lemma {:induction false} NoneOutside(members: seq<Member>)
    requires AllBelow(members, MACOSX)
    ensures OutsideBytes(members) == 0
  {
    if members != [] {
      NoneOutside(members[..|members| - 1]);
    }
  }

  lemma {:induction false} CountedAreEmpty(members: seq<Member>, prefix: string)
    ensures ByteCount(members, prefix) == 0 <==> AllEmpty(members, m => Extracted(m, prefix))
  {
    if members != [] {
      var front, last := members[..|members| - 1], members[|members| - 1];
      assert members == front + [last];
      CountedAreEmpty(front, prefix);
      AllEmptySnoc(front, last, m => Extracted(m, prefix));
    }
  }

  lemma ExtractedUnderRoot(m: Member, root: string)
    requires root != "" && root != MACOSX && AllBelow([m], root)
    ensures Extracted(m, root) <==> Outside(m) && !NestedMac(m)
    ensures NestedMac(m) ==> Outside(m)
  {
    assert [m][0] == m;
  }

  lemma AllEmptySnoc(front: seq<Member>, last: Member, chosen: Member -> bool)
    ensures AllEmpty(front + [last], chosen) <==> AllEmpty(front, chosen) && (chosen(last) ==> last.size == 0)
  {
    assert (front + [last])[|front|] == last;
    assert forall i :: 0 <= i < |front| ==> (front + [last])[i] == front[i];
  }

  lemma {:induction false} BytesUnderRoot(members: seq<Member>, root: string)
    requires root != "" && root != MACOSX && AllBelow(members, root)
    ensures ByteCount(members, root) <= OutsideBytes(members)
    ensures ByteCount(members, root) == OutsideBytes(members) <==> AllEmpty(members, NestedMac)
  {
    if members != [] {
      var front, last := members[..|members| - 1], members[|members| - 1];
      assert members == front + [last];
      BytesUnderRoot(front, root);
      ExtractedUnderRoot(last, root);
      AllEmptySnoc(front, last, NestedMac);
    }
  }

  // ----- the workspace

  /** An uploaded file: `members` is None when it is no ZIP archive. */
  datatype Archive = Archive(present: bool, size: nat, members: Option<seq<Member>>)

  datatype Outcome = Rejected | Imported(files: nat, bytes: nat)

  /** So an archive has one prefix, and what becomes of it is determined. */
  lemma PrefixIsUnique(members: seq<Member>, p: string, q: string)
    requires SafeFiles(members) && IsPrefix(members, p) && IsPrefix(members, q)
    ensures p == q
  {
    if p != "" && q != "" {
      var i :| 0 <= i < |members| && !members[i].IsDir() && SafeParts(members[i].name).value != [];
      assert SafeParts(members[i].name).value[0] == p;
    }
  }

  ghost predicate ImportedWith(members: seq<Member>, prefix: string, app: Option<Entries>, outcome: Outcome) {
    && SafeFiles(members) && IsPrefix(members, prefix)
    && app.Some? && app == AddAll(members, prefix)
    && outcome == Imported(FileCount(members, prefix), ByteCount(members, prefix))
    && outcome.files > 0
  }

  /** The archive passes every check that comes before its members are expanded. */
  predicate Admissible(archive: Archive) {
    && archive.present && archive.size <= MAX_ARCHIVE_BYTES && archive.members.Some?
    && |archive.members.value| <= MAX_ARCHIVE_FILES && TotalSize(archive.members.value) <= MAX_UNCOMPRESSED_BYTES
    && SafeFiles(archive.members.value)
  }

  /** The common root can be told, every member is sound, none clashes, and some file is written. */
  ghost predicate Expandable(members: seq<Member>, prefix: string) {
    && SafeFiles(members) && IsPrefix(members, prefix)
    && AllSound(members, prefix) && NoClash(members, prefix)
    && exists q :: SomeWrites(members, prefix, q)
  }

  ghost predicate HasLink(members: seq<Member>) {
    exists i :: 0 <= i < |members| && members[i].link
  }

  /** What an archive must be to be imported, with the limits in bytes and members. */
  ghost predicate Importable(archive: Archive) {
    && archive.present && archive.size <= 78643200 && archive.members.Some?
    && |archive.members.value| <= 12000 && TotalSize(archive.members.value) <= 471859200
    && exists prefix :: Expandable(archive.members.value, prefix)
  }

  lemma ImportableIff(archive: Archive, prefix: string)
    requires Admissible(archive) && IsPrefix(archive.members.value, prefix)
    ensures var members := archive.members.value;
      Importable(archive) <==> AddAll(members, prefix).Some? && FileCount(members, prefix) > 0
  {
    var members := archive.members.value;
    ExpandsIff(members, prefix);
    CountIsPositiveIff(members, prefix);
    assert Expandable(members, prefix) <==> AddAll(members, prefix).Some? && FileCount(members, prefix) > 0;
    if p :| Expandable(members, p) {
      PrefixIsUnique(members, p, prefix);
    }
  }

  class Workspace {
    var app: Option<Entries>
    var staging: Option<Entries>

    constructor (app: Option<Entries>)
      ensures this.app == app && staging == None
    {
      this.app, staging := app, None;
    }

    /** The member loop, into an empty staging directory; `ok` is false when it raises. */
    method Expand(members: seq<Member>, prefix: string) returns (ok: bool, files: nat, bytes: nat)
      requires staging == Some(map[])
      modifies this`staging
      ensures ok <==> AddAll(members, prefix).Some?
      ensures ok ==> staging == AddAll(members, prefix)
      ensures ok ==> files == FileCount(members, prefix) && bytes == ByteCount(members, prefix)
    {
      files, bytes := 0, 0;
      for i := 0 to |members|
        invariant staging.Some? && staging == AddAll(members[..i], prefix)
        invariant files == FileCount(members[..i], prefix) && bytes == ByteCount(members[..i], prefix)
      {
        assert members[..i + 1][..i] == members[..i];
        var added := AddMember(staging.value, members[i], prefix);
        if added.None? {
          FailureStays(members, prefix, i + 1);
          return false, files, bytes;
        }
        staging := added;
        if Extracted(members[i], prefix) {
          files, bytes := files + 1, bytes + members[i].size;
        }
      }
      assert members[..|members|] == members;
      return true, files, bytes;
    }

    /** extract_zip_to_project.  An archive is imported exactly when it is within the limits and can be
        expanded into some file, and one with a symbolic link is not.  A rejected archive leaves the app
        tree as it was; an imported one replaces it by exactly the extracted tree, and the counts are
        those of the extracted files.
        Nothing is left of the staging directory once one was made. */
    method ExtractZip(archive: Archive) returns (outcome: Outcome)
      modifies this
      ensures outcome.Imported? <==> Importable(archive)
      ensures archive.members.Some? && HasLink(archive.members.value) ==> outcome.Rejected?
      ensures outcome.Rejected? ==> app == old(app)
      ensures archive.present && archive.size <= MAX_ARCHIVE_BYTES ==> staging == None
      ensures outcome.Imported? ==>
          Admissible(archive) && exists prefix :: ImportedWith(archive.members.value, prefix, app, outcome)
    {
      if !archive.present || archive.size > MAX_ARCHIVE_BYTES {
        return Rejected;
      }
      staging := Some(map[]);
      outcome := Rejected;
      if archive.members.Some? {
        var members := archive.members.value;
        if |members| <= MAX_ARCHIVE_FILES && TotalSize(members) <= MAX_UNCOMPRESSED_BYTES {
          var prefix := ArchiveRootPrefix(members);
          if prefix.Some? {
            ImportableIff(archive, prefix.value);
            var ok, files, bytes := Expand(members, prefix.value);
            if ok && files > 0 {
              app, outcome := staging, Imported(files, bytes);
              assert ImportedWith(members, prefix.value, app, outcome);
            }
          }
        }
      }
      ghost var left := app;
      staging := None;
      assert app == left;
    }
  }

  lemma {:induction false} FailureStays(members: seq<Member>, prefix: string, k: nat)
    requires k <= |members| && AddAll(members[..k], prefix).None?
    ensures AddAll(members, prefix).None?
  {
    if k < |members| {
      assert members[..|members| - 1][..k] == members[..k];
      FailureStays(members[..|members| - 1], prefix, k);
    } else {
      assert members[..k] == members;
    }
  }
}
