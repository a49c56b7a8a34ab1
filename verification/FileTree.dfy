/** Directory trees. */
module FileTree {
  import opened Wrappers

  datatype Node = File(content: string) | Dir(entries: Entries)

  type Entries = map<string, Node>

  /** The entries of a subdirectory; None when there is no such directory. */
  function Subdir(d: Entries, name: string): Option<Entries> {
    if name in d && d[name].Dir? then Some(d[name].entries) else None
  }

  /** `mkdir(exist_ok=True)`; None when something that is no directory is in the way. */
  function MakeDir(d: Entries, name: string): Option<Entries> {
    if name !in d then Some(d[name := Dir(map[])]) else if d[name].Dir? then Some(d) else None
  }

  /** The components of a path. */
  type Parts = seq<string>

  /** `mkdir(parents=True, exist_ok=True)`; None when a file is in the way. */
  function MakePath(d: Entries, path: Parts): Option<Entries>
    decreases |path|
  {
    if path == [] then Some(d)
    else
      match MakeDir(d, path[0])
      case None => None
      case Some(made) =>
        match MakePath(made[path[0]].entries, path[1..])
        case None => None
        case Some(sub) => Some(made[path[0] := Dir(sub)])
  }

  /** Making the directories above a path and writing a file there; None when that fails. */
  function WriteAt(d: Entries, path: Parts, content: string): Option<Entries>
    requires path != []
    decreases |path|
  {
    if |path| == 1 then if path[0] in d && d[path[0]].Dir? then None else Some(d[path[0] := File(content)])
    else
      match MakeDir(d, path[0])
      case None => None
      case Some(made) =>
        match WriteAt(made[path[0]].entries, path[1..], content)
        case None => None
        case Some(sub) => Some(made[path[0] := Dir(sub)])
  }

  /** The content of the file at a path, if there is a file. */
  function FileAt(d: Entries, path: Parts): Option<string>
    decreases |path|
  {
    if path == [] || path[0] !in d then None
    else if |path| == 1 then if d[path[0]].File? then Some(d[path[0]].content) else None
    else if d[path[0]].Dir? then FileAt(d[path[0]].entries, path[1..])
    else None
  }

  lemma {:induction false} NoFilesInEmpty(path: Parts)
    ensures FileAt(map[], path) == None
  {
  }

  /** Making directories changes no file. */
  lemma {:induction false} MakePathKeepsFiles(d: Entries, path: Parts, q: Parts)
    requires MakePath(d, path).Some?
    ensures FileAt(MakePath(d, path).value, q) == FileAt(d, q)
    decreases |path|
  {
    if path != [] {
      var made := MakeDir(d, path[0]).value;
      NoFilesInEmpty(q[if q == [] then 0 else 1..]);
      assert FileAt(made, q) == FileAt(d, q);
      if q != [] && q[0] == path[0] {
        MakePathKeepsFiles(made[path[0]].entries, path[1..], q[1..]);
      }
    }
  }

  /** Writing a file sets that file and changes no other. */
  lemma {:induction false} WriteAtWrites(d: Entries, path: Parts, content: string, q: Parts)
    requires path != [] && WriteAt(d, path, content).Some?
    ensures FileAt(WriteAt(d, path, content).value, q) == if q == path then Some(content) else FileAt(d, q)
    decreases |path|
  {
    var d' := WriteAt(d, path, content).value;
    if |path| == 1 {
      assert path == [path[0]];
      if q != [] && q[0] == path[0] && |q| == 1 {
        assert q == [q[0]];
      }
    } else {
      var made := MakeDir(d, path[0]).value;
      NoFilesInEmpty(q[if q == [] then 0 else 1..]);
      assert FileAt(made, q) == FileAt(d, q);
      if q != [] && q[0] == path[0] {
        WriteAtWrites(made[path[0]].entries, path[1..], content, q[1..]);
        assert q == [q[0]] + q[1..] && path == [path[0]] + path[1..];
      }
    }
  }

  predicate DirAt(d: Entries, path: Parts)
    decreases |path|
  {
    path == [] || (path[0] in d && d[path[0]].Dir? && DirAt(d[path[0]].entries, path[1..]))
  }

  lemma {:induction false} NoDirsInEmpty(path: Parts)
    ensures DirAt(map[], path) <==> path == []
  {
  }

  /** Some file stands at one of the first `depth` directories of a path. */
  ghost predicate FileOnTheWay(d: Entries, path: Parts, depth: nat)
    requires depth <= |path|
  {
    exists k :: 1 <= k <= depth && FileAt(d, path[..k]).Some?
  }

  lemma OnTheWayBelow(d: Entries, path: Parts, depth: nat)
    requires 1 <= depth <= |path| && path[0] in d && d[path[0]].Dir?
    ensures FileOnTheWay(d, path, depth) <==> FileOnTheWay(d[path[0]].entries, path[1..], depth - 1)
  {
    var sub := d[path[0]].entries;
    forall k | 1 <= k <= depth
      ensures FileAt(d, path[..k]).Some? <==> k > 1 && FileAt(sub, path[1..][..k - 1]).Some?
    {
      assert path[..k][1..] == path[1..][..k - 1];
    }
    if k :| 1 <= k <= depth - 1 && FileAt(sub, path[1..][..k]).Some? {
      assert FileAt(d, path[..k + 1]).Some?;
    }
  }

  lemma NothingOnTheWay(d: Entries, path: Parts, depth: nat)
    requires 1 <= depth <= |path| && path[0] !in d
    ensures !FileOnTheWay(d, path, depth)
  {
  }

  lemma FileInTheWay(d: Entries, path: Parts, depth: nat)
    requires 1 <= depth <= |path| && path[0] in d && d[path[0]].File?
    ensures FileOnTheWay(d, path, depth)
  {
    assert FileAt(d, path[..1]).Some?;
  }

  lemma {:induction false} NothingInEmpty(path: Parts, depth: nat)
    requires depth <= |path|
    ensures !FileOnTheWay(map[], path, depth)
  {
  }

  /** Making directories fails exactly when a file is in the way. */
  lemma {:induction false} MakePathIff(d: Entries, path: Parts)
    ensures MakePath(d, path).Some? <==> !FileOnTheWay(d, path, |path|)
    decreases |path|
  {
    if path != [] {
      if path[0] !in d {
        NothingOnTheWay(d, path, |path|);
        MakePathIff(map[], path[1..]);
        NothingInEmpty(path[1..], |path| - 1);
      } else if d[path[0]].File? {
        FileInTheWay(d, path, |path|);
      } else {
        OnTheWayBelow(d, path, |path|);
        MakePathIff(d[path[0]].entries, path[1..]);
      }
    }
  }

  /** Writing a file fails exactly when a file is in the way, or a directory has that path. */
  lemma {:induction false} WriteAtIff(d: Entries, path: Parts, content: string)
    requires path != []
    ensures WriteAt(d, path, content).Some? <==> !FileOnTheWay(d, path, |path| - 1) && !DirAt(d, path)
    decreases |path|
  {
    if |path| > 1 {
      if path[0] !in d {
        NothingOnTheWay(d, path, |path| - 1);
        WriteAtIff(map[], path[1..], content);
        NothingInEmpty(path[1..], |path| - 2);
      } else if d[path[0]].File? {
        FileInTheWay(d, path, |path| - 1);
      } else {
        OnTheWayBelow(d, path, |path| - 1);
        WriteAtIff(d[path[0]].entries, path[1..], content);
      }
    }
  }

  lemma BelowAlike(path: Parts, q: Parts)
    requires path != [] && q != [] && path[0] == q[0]
    ensures q <= path <==> q[1..] <= path[1..]
    ensures q < path <==> q[1..] < path[1..]
  {
    assert q == [q[0]] + q[1..] && path == [path[0]] + path[1..];
  }

  /** Making directories makes those of the path, and no others. */
  lemma {:induction false} MakePathDirs(d: Entries, path: Parts, q: Parts)
    requires MakePath(d, path).Some?
    ensures DirAt(MakePath(d, path).value, q) <==> DirAt(d, q) || q <= path
    decreases |path|
  {
    if path != [] && q != [] && q[0] == path[0] {
      var made := MakeDir(d, path[0]).value;
      NoDirsInEmpty(q[1..]);
      MakePathDirs(made[path[0]].entries, path[1..], q[1..]);
      BelowAlike(path, q);
    }
  }

  /** Writing a file makes the directories above it, and no others. */
  lemma {:induction false} WriteAtDirs(d: Entries, path: Parts, content: string, q: Parts)
    requires path != [] && WriteAt(d, path, content).Some?
    ensures DirAt(WriteAt(d, path, content).value, q) <==> DirAt(d, q) || q < path
    decreases |path|
  {
    if q != [] && q[0] == path[0] {
      BelowAlike(path, q);
      if |path| > 1 {
        var made := MakeDir(d, path[0]).value;
        NoDirsInEmpty(q[1..]);
        WriteAtDirs(made[path[0]].entries, path[1..], content, q[1..]);
      }
    }
  }
}
