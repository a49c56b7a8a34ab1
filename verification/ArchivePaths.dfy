/** What the names of archive members spell (syte/project_intake.py:59-66). */
module ArchivePaths {
  import opened Wrappers
  import opened FileTree
  import opened ZipIntake

  /** The components with a slash between each two. */
  function Join(parts: seq<string>): string
    requires parts != []
  {
    if |parts| == 1 then parts[0] else parts[0] + "/" + Join(parts[1..])
  }

  predicate NoSlashes(parts: seq<string>) {
    forall i :: 0 <= i < |parts| ==> '/' !in parts[i]
  }

  lemma {:induction false} SplitAfter(part: string, rest: string)
    requires '/' !in part
    ensures Split(part) == [part]
    ensures Split(part + "/" + rest) == [part] + Split(rest)
  {
    if part == "" {
      assert (part + "/" + rest)[1..] == rest;
    } else {
      SplitAfter(part[1..], rest);
      assert (part + "/" + rest)[1..] == part[1..] + "/" + rest;
      assert part == [part[0]] + part[1..];
    }
  }

  /** Taking a joined name apart gives its components back. */
  lemma {:induction false} SplitJoined(parts: seq<string>)
    requires parts != [] && NoSlashes(parts)
    ensures Split(Join(parts)) == parts
  {
    if |parts| == 1 {
      SplitAfter(parts[0], "");
    } else {
      SplitAfter(parts[0], Join(parts[1..]));
      SplitJoined(parts[1..]);
    }
  }

  /** Every name is joined from components without slashes. */
  lemma {:induction false} JoinSplit(name: string)
    ensures NoSlashes(Split(name)) && Join(Split(name)) == name
  {
    if name != "" {
      JoinSplit(name[1..]);
      var rest := Split(name[1..]);
      assert name == [name[0]] + name[1..];
      if name[0] == '/' {
        assert Split(name)[1..] == rest;
      } else {
        assert Split(name)[1..] == rest[1..];
      }
    }
  }

  predicate NoneOf(parts: seq<string>, c: char) {
    forall i :: 0 <= i < |parts| ==> c !in parts[i]
  }

  lemma {:induction false} InJoined(parts: seq<string>, c: char)
    requires parts != [] && c != '/'
    ensures c !in Join(parts) <==> NoneOf(parts, c)
  {
    if |parts| > 1 {
      InJoined(parts[1..], c);
      assert forall i :: 1 <= i < |parts| ==> parts[i] == parts[1..][i - 1];
    }
  }

  lemma {:induction false} ProperKeeps(parts: seq<string>, part: string)
    requires part != "" && part != "."
    ensures part in Proper(parts) <==> part in parts
  {
    if parts != [] {
      ProperKeeps(parts[1..], part);
    }
  }

  /** Empty components and single dots add nothing to a path, every other component adds itself. */
  lemma {:induction false} ProperInOrder(front: seq<string>, part: string)
    ensures Proper(front + [part]) == if part == "" || part == "." then Proper(front) else Proper(front) + [part]
  {
    if front != [] {
      ProperInOrder(front[1..], part);
      assert (front + [part])[1..] == front[1..] + [part];
    }
  }

  /** A name is accepted exactly when it is neither empty nor absolute, none of its components is
      "..", and it has no backslash and no NUL. */
  lemma SafeNameIff(parts: seq<string>)
    requires parts != [] && NoSlashes(parts)
    ensures SafeParts(Join(parts)).Some? <==>
        parts[0] != "" && ".." !in parts && NoneOf(parts, '\\') && NoneOf(parts, '\0')
    ensures SafeParts(Join(parts)).Some? ==> SafeParts(Join(parts)).value == Proper(parts)
  {
    SplitJoined(parts);
    InJoined(parts, '\\');
    InJoined(parts, '\0');
    ProperKeeps(parts, "..");
  }

  predicate PlainPart(part: string) {
    part != "" && part != "." && part != ".." && '/' !in part && '\\' !in part && '\0' !in part
  }

  lemma {:induction false} ProperOfPlain(path: Parts)
    requires forall i :: 0 <= i < |path| ==> PlainPart(path[i])
    ensures Proper(path) == path
  {
    if path != [] {
      ProperOfPlain(path[1..]);
    }
  }

  /** Every path of plain components is spelled by its join. */
  lemma PlainPathIsSpelled(path: Parts)
    requires path != [] && forall i :: 0 <= i < |path| ==> PlainPart(path[i])
    ensures SafeParts(Join(path)) == Some(path)
  {
    SafeNameIff(path);
    ProperOfPlain(path);
  }
}
