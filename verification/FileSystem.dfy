/**
  The in-memory file system.  Resolving a path is looking it up in the ghost map `paths`,
  and making a directory adds one entry to it.
 */
module FileSystem {
  import opened Paths
  import opened PathNames
  import opened FsTree

  const TOP_DIRS: seq<string> := ["dev", "proc", "sys", "tmp", "home", "etc"]

  /** The bytes of "teamos" and a newline. */
  const HOSTNAME: seq<nat> := [116, 101, 97, 109, 111, 115, 10]

  datatype Status = Ok | ErrInvalidArg | ErrNotFound | ErrAlreadyExists | ErrNoMemory

  ghost predicate IsTop(p: seq<string>, i: nat)
    requires i <= |TOP_DIRS|
  {
    |p| == 1 && p[0] in TOP_DIRS[..i]
  }

  function HostnamePath(): seq<string> {
    ["etc", "hostname"]
  }

  lemma NoTop()
    ensures forall p: seq<string> :: !IsTop(p, 0)
  {
  }

  lemma EtcThere()
    ensures [] + ["etc"] == ["etc"] && ["etc"] + ["hostname"] == HostnamePath()
    ensures IsTop(["etc"], |TOP_DIRS|) && !IsTop(HostnamePath(), |TOP_DIRS|)
  {
    assert TOP_DIRS[5] == "etc";
  }

  lemma NotThere(p: seq<string>)
    requires |p| == 2 && |p[0]| == COMPONENT_MAX
    ensures !IsTop(p, |TOP_DIRS|) && p != HostnamePath()
  {
    assert |HostnamePath()[0]| == 3;
  }

  lemma TopDirsDistinct(i: nat)
    requires i < |TOP_DIRS|
    ensures !IsTop([] + [TOP_DIRS[i]], i)
  {
    assert forall j: nat :: j < i ==> TOP_DIRS[j] != TOP_DIRS[i];
  }

  lemma NextTop(i: nat)
    requires i < |TOP_DIRS|
    ensures forall p: seq<string> :: IsTop(p, i + 1) <==> IsTop(p, i) || p == [] + [TOP_DIRS[i]]
  {
    assert TOP_DIRS[..i + 1] == TOP_DIRS[..i] + [TOP_DIRS[i]];
  }

  class FileSystem {
    var root: VNode?
    ghost var paths: PathMap

    ghost predicate Valid()
      reads this, paths.Values
    {
      && (root == null <==> paths == map[])
      && (root != null ==> [] in paths && paths[[]] == root && root.isDir)
      && Linked(paths, TablesOf(paths)) && Tree(paths) && Named(paths)
    }

    /** The node a path leads to, by the path map. */
    ghost function Lookup(path: string): VNode?
      reads this
    {
      if |path| == 0 || path[0] != '/' || Chunks(path[1..]) !in paths then null
      else paths[Chunks(path[1..])]
    }

    /** No entry without a node lies on the way: the source would follow it. */
    ghost predicate Walkable(path: string)
      reads this
    {
      |path| > 0 && path[0] == '/' ==>
        var comps := Chunks(path[1..]);
        forall k: nat :: k < |comps| && comps[..k] in paths ==> paths[comps[..k]] != null
    }

    constructor ()
      ensures Valid() && root == null
    {
      root, paths := null, map[];
    }

    /** Copies the characters up to the next slash into a buffer of 255 characters. */
    method ReadComponent(path: string, from: nat) returns (component: string, p: nat)
      requires from < |path|
      ensures from <= p <= |path| && component == path[from..p]
      ensures Chunks(path[from..]) == (if component == "" then [] else [component])
                + Chunks(if p < |path| && path[p] == '/' then path[p + 1..] else path[p..])
      ensures p == from ==> path[p] == '/'
    {
      hide Chunks;
      component, p := "", from;
      while p < |path| && path[p] != '/' && |component| < COMPONENT_MAX
        invariant from <= p <= |path| && component == path[from..p] && |component| <= COMPONENT_MAX
        invariant forall j: nat :: from <= j < p ==> path[j] != '/'
      {
        component := component + [path[p]];
        p := p + 1;
      }
      NextComponent(path, from, p);
    }

    method Resolve(path: string) returns (node: VNode?)
      requires Valid() && Walkable(path)
      ensures node == Lookup(path)
    {
      hide Chunks, Linked, Tree, Named;
      if root == null || |path| == 0 || path[0] != '/' {
        return null;
      }
      var cur: VNode? := root;
      var p := 1;
      ghost var walked: seq<string> := [];
      assert walked + Chunks(path[1..]) == Chunks(path[1..]);
      while p < |path|
        invariant 1 <= p <= |path|
        invariant walked in paths && paths[walked] == cur
        invariant walked + Chunks(path[p..]) == Chunks(path[1..])
      {
        var component;
        component, p := ReadComponent(path, p);
        if p < |path| && path[p] == '/' {
          p := p + 1;
        }
        if component == "" {
          continue;
        }
        assert walked + ([component] + Chunks(path[p..])) == (walked + [component]) + Chunks(path[p..]);
        assert Chunks(path[1..])[..|walked|] == walked;
        ChildIn(paths, TablesOf(paths), walked, component, Chunks(path[p..]));
        if !cur.isDir {
          return null;
        }
        if component !in cur.children {
          return null;
        }
        cur := cur.children[component];
        walked := walked + [component];
      }
      NoChunks(path[p..]);
      assert walked + Chunks(path[p..]) == walked;
      node := cur;
    }

    /** Makes an entry under the directory at component path pp. */
    method Insert(parent: VNode, name: string, node: VNode?, ghost pp: seq<string>)
      requires Valid() && pp in paths && paths[pp] == parent && parent.isDir && name !in parent.children
      requires node != null ==> node !in paths.Values && node.children == map[] && node.name == name
      modifies `paths, parent`children
      ensures Valid()
      ensures paths == old(paths)[pp + [name] := node]
      ensures parent.children == old(parent.children)[name := node]
    {
      hide Tree, LinkedAt, Linked, Named, Grown, TablesOf;
      ghost var before, t := paths, TablesOf(paths);
      ChildThere(paths, t, pp, name);
      OnlyThere(paths, pp);
      assert |pp + [name]| > |pp|;
      parent.children := parent.children[name := node];
      paths := paths[pp + [name] := node];
      TablesGrow(before, t, pp, name, node);
      GrowTree(before, pp, name, node);
      GrowNamed(before, pp, name, node);
      GrowLinked(before, t, pp, name, node);
    }

    /** Creates the root, six directories under it and /etc/hostname; memory says whether
        the root can be allocated. */
    method Init(memory: bool) returns (st: Status)
      requires Valid()
      modifies this
      ensures Valid() && st == if old(root) != null || memory then Ok else ErrNoMemory
      ensures old(root) != null || st == ErrNoMemory ==> unchanged(this)
      ensures old(root) == null && st == Ok ==>
          && root != null
          && (forall p: seq<string> :: p in paths <==> p == [] || IsTop(p, |TOP_DIRS|) || p == HostnamePath())
          && (forall p: seq<string> :: p in paths ==>
                paths[p] != null && fresh(paths[p]) && (paths[p].isDir <==> p != HostnamePath()))
          && HostnamePath() in paths && paths[HostnamePath()].data == HOSTNAME
    {
      hide Linked, Tree, Named, HostnamePath, IsTop;
      if root != null {
        return Ok;
      }
      if !memory {
        return ErrNoMemory;
      }
      MakeRoot();
      MakeTopDirs();
      MakeHostname();
      return Ok;
    }

    method MakeTopDirs()
      requires Valid() && root != null && paths == map[[] := root]
      modifies `paths, root`children
      ensures Valid()
      ensures forall p: seq<string> :: p in paths <==> p == [] || IsTop(p, |TOP_DIRS|)
      ensures forall p: seq<string> :: p in paths ==>
                paths[p] != null && (p == [] || fresh(paths[p])) && paths[p].isDir
    {
      hide Linked, Tree, Named, IsTop;
      var i := 0;
      NoTop();
      while i < |TOP_DIRS|
        invariant 0 <= i <= |TOP_DIRS| && Valid()
        invariant forall p: seq<string> :: p in paths <==> p == [] || IsTop(p, i)
        invariant forall p: seq<string> :: p in paths ==>
                paths[p] != null && (p == [] || fresh(paths[p])) && paths[p].isDir
      {
        MakeTopDir(i);
        i := i + 1;
      }
    }

    method MakeTopDir(i: nat)
      requires Valid() && root != null && i < |TOP_DIRS|
      requires forall p: seq<string> :: p in paths <==> p == [] || IsTop(p, i)
      modifies `paths, root`children
      ensures Valid()
      ensures forall p: seq<string> :: p in paths <==> p == [] || IsTop(p, i + 1)
      ensures forall p: seq<string> :: p in paths ==>
                if p in old(paths) then paths[p] == old(paths)[p]
                else paths[p] != null && fresh(paths[p]) && paths[p].isDir
    {
      hide Linked, Tree, Named, IsTop, TablesOf;
      TopDirsDistinct(i);
      ChildThere(paths, TablesOf(paths), [], TOP_DIRS[i]);
      var dir := new VNode(TOP_DIRS[i], true);
      Insert(root, TOP_DIRS[i], dir, []);
      NextTop(i);
    }

    method MakeHostname()
      requires Valid() && root != null
      requires forall p: seq<string> :: p in paths <==> p == [] || IsTop(p, |TOP_DIRS|)
      requires forall p: seq<string> :: p in paths ==> paths[p] != null && paths[p].isDir
      modifies `paths, paths.Values`children
      ensures Valid() && HostnamePath() !in old(paths) && HostnamePath() in paths
      ensures paths == old(paths)[HostnamePath() := paths[HostnamePath()]]
      ensures paths[HostnamePath()] != null && fresh(paths[HostnamePath()])
      ensures !paths[HostnamePath()].isDir && paths[HostnamePath()].data == HOSTNAME
    {
      hide Linked, Tree, Named, IsTop;
      EtcThere();
      ChildThere(paths, TablesOf(paths), [], "etc");
      ChildNode(paths, TablesOf(paths), [], "etc");
      var etc := root.children["etc"];
      ChildThere(paths, TablesOf(paths), ["etc"], "hostname");
      var hostname := new VNode("hostname", false);
      hostname.data := HOSTNAME;
      Insert(etc, "hostname", hostname, ["etc"]);
    }

    method MakeRoot()
      requires Valid() && root == null
      modifies this
      ensures Valid() && root != null && fresh(root) && root.isDir && paths == map[[] := root]
    {
      var node := new VNode("/", true);
      root := node;
      paths := map[[] := node];
      assert [] in paths;
    }

    /** Makes an empty directory; memory says whether its node can be allocated.  A failed
        allocation leaves an entry without a node: the path then leads nowhere, and the name
        is taken. */
    method MkDir(path: string, memory: bool) returns (st: Status)
      requires Valid()
      requires |path| > 0 && path[0] == '/' && |NameOf(path)| > 0 ==> Walkable(ParentOf(path))
      modifies `paths, paths.Values`children
      ensures Valid()
      ensures st == ErrInvalidArg <==> |path| == 0 || path[0] != '/' || |NameOf(path)| == 0
      ensures st != ErrInvalidArg ==>
          (st == ErrNotFound <==> old(Lookup(ParentOf(path))) == null || !old(Lookup(ParentOf(path))).isDir)
      ensures st != ErrInvalidArg && st != ErrNotFound ==>
          && (st == ErrAlreadyExists <==> Target(path) in old(paths))
          && (st == ErrNoMemory <==> Target(path) !in old(paths) && !memory)
      ensures st != Ok && st != ErrNoMemory ==>
          paths == old(paths) && forall n: VNode :: n in old(paths).Values ==> unchanged(n)
      ensures st == ErrNoMemory ==> paths == old(paths)[Target(path) := null]
      ensures st == Ok ==>
          && (exists node: VNode :: fresh(node) && node.isDir && node.children == map[] && node.data == []
                                    && node.name == NameOf(path) && paths == old(paths)[Target(path) := node])
          && (Target(path) == Chunks(path[1..]) <==> |NameOf(path)| <= COMPONENT_MAX)
          && (Lookup(path) != null && fresh(Lookup(path)) <==> |NameOf(path)| <= COMPONENT_MAX)
    {
      hide Chunks, Linked, Tree, Named, LastSlash;
      if |path| == 0 || path[0] != '/' {
        return ErrInvalidArg;
      }
      var parentPath, name := ParentOf(path), NameOf(path);
      if name == "" {
        return ErrInvalidArg;
      }
      var parent := Resolve(parentPath);
      if parent == null || !parent.isDir {
        return ErrNotFound;
      }
      ghost var pp := Chunks(parentPath[1..]);
      ChildThere(paths, TablesOf(paths), pp, name);
      if name in parent.children {
        return ErrAlreadyExists;
      }
      NewName(path);
      var node: VNode? := null;
      if memory {
        node := new VNode(name, true);
      }
      Insert(parent, name, node, pp);
      if node == null {
        return ErrNoMemory;
      }
      return Ok;
    }
  }

  /** A name of 256 characters: the directory is made, and its path does not lead to it. */
  method LongNameRun(fs: FileSystem)
    requires fs.Valid() && fs.root == null
    modifies fs
    ensures fs.Valid() && [LongName()] in fs.paths && fs.Lookup(LongPath()) == null
  {
    hide Chunks, Linked, Tree, Named, IsTop, LastSlash;
    LongPathParts();
    NoChunks("");
    NotThere([LongName()[..COMPONENT_MAX], "a"]);
    assert "/"[1..] == "";
    var st := fs.Init(true);
    st := fs.MkDir(LongPath(), true);
  }

  /** A directory that once could not be allocated can never be made: its name is taken by
      an entry that leads nowhere. */
  method RetryRun(fs: FileSystem, path: string) returns (first: Status, second: Status)
    requires fs.Valid() && |path| > 0 && path[0] == '/' && |NameOf(path)| > 0 && fs.Walkable(ParentOf(path))
    modifies fs, fs.paths.Values
    ensures fs.Valid() && (first == ErrNoMemory ==> second == ErrAlreadyExists)
    ensures first == ErrNoMemory && |NameOf(path)| <= COMPONENT_MAX ==> fs.Lookup(path) == null
  {
    hide Chunks, Linked, Tree, Named, LastSlash, TablesOf;
    second := Ok;
    first := fs.MkDir(path, false);
    if first == ErrNoMemory {
      NewName(path);
      assert |Target(path)| == |Chunks(ParentOf(path)[1..])| + 1;
      second := fs.MkDir(path, true);
    }
  }
}
