/**
  The nodes of the in-memory file system, and the tree they form: a map from component
  paths to nodes, tied to the table of children of every node.  An entry may hold no node,
  which is what a failed allocation leaves behind.
 */
module FsTree {

  class VNode {
    const name: string
    const isDir: bool
    var data: seq<nat>
    var children: map<string, VNode?>

    constructor (name: string, isDir: bool)
      ensures this.name == name && this.isDir == isDir && data == [] && children == map[]
    {
      this.name, this.isDir, data, children := name, isDir, [], map[];
    }
  }

  type PathMap = map<seq<string>, VNode?>

  type Tables = map<seq<string>, map<string, VNode?>>

  /** The table of children at every path with a node. */
  ghost function TablesOf(paths: PathMap): (t: Tables)
    reads paths.Values
    ensures forall p: seq<string> :: p in t <==> p in paths && paths[p] != null
    ensures forall p: seq<string> :: p in t ==> p in paths && paths[p] != null && t[p] == paths[p].children
  {
    map p | p in paths && paths[p] != null :: paths[p].children
  }

  ghost predicate LinkedAt(paths: PathMap, t: Tables, p: seq<string>, c: string)
    requires p in t
  {
    && (p + [c] in paths <==> c in t[p])
    && (c in t[p] && p + [c] in paths ==> paths[p + [c]] == t[p][c])
  }

  /** The children of every node are the entries one component further. */
  ghost predicate Linked(paths: PathMap, t: Tables) {
    && (forall p: seq<string> :: p in t <==> p in paths && paths[p] != null)
    && (forall p: seq<string>, c: string :: p in t ==> LinkedAt(paths, t, p, c))
    && (forall p: seq<string> :: p in t && p in paths && paths[p] != null && !paths[p].isDir ==> t[p] == map[])
  }

  ghost predicate Tree(paths: PathMap) {
    && (forall p: seq<string> :: p in paths && |p| > 0 ==>
          p[..|p| - 1] in paths && paths[p[..|p| - 1]] != null)
    && (forall p: seq<string>, q: seq<string> ::
          p in paths && q in paths && paths[p] != null && paths[p] == paths[q] ==> p == q)
  }

  /** Every node but the root is called by the last component of its path. */
  ghost predicate Named(paths: PathMap) {
    forall p: seq<string> :: p in paths && |p| > 0 && paths[p] != null ==> paths[p].name == p[|p| - 1]
  }

  lemma {:induction false} PrefixIn(paths: PathMap, p: seq<string>, q: seq<string>)
    requires Tree(paths) && p + q in paths
    ensures p in paths && (|q| > 0 ==> paths[p] != null)
  {
    if |q| == 0 {
      assert p + q == p;
    } else {
      var n := |q| - 1;
      assert (p + q)[..|p + q| - 1] == p + q[..n];
      PrefixIn(paths, p, q[..n]);
    }
  }

  lemma ChildNode(paths: PathMap, t: Tables, p: seq<string>, c: string)
    requires Linked(paths, t) && p in t && p + [c] in paths
    ensures c in t[p] && paths[p + [c]] == t[p][c]
  {
    assert LinkedAt(paths, t, p, c);
  }

  /** A longer path goes through the table of children of every node on the way. */
  lemma ChildIn(paths: PathMap, t: Tables, p: seq<string>, c: string, rest: seq<string>)
    requires Linked(paths, t) && Tree(paths) && p in t
    ensures p in paths && paths[p] != null
    ensures p + [c] + rest in paths ==> c in t[p]
    ensures c in t[p] ==> p + [c] in paths && paths[p + [c]] == t[p][c]
    ensures c in t[p] ==> paths[p].isDir
  {
    assert LinkedAt(paths, t, p, c);
    if p + [c] + rest in paths {
      PrefixIn(paths, p + [c], rest);
    }
  }

  lemma ChildThere(paths: PathMap, t: Tables, p: seq<string>, c: string)
    requires Linked(paths, t) && p in t
    ensures c in t[p] <==> p + [c] in paths
  {
    assert LinkedAt(paths, t, p, c);
  }

  lemma OnlyThere(paths: PathMap, p: seq<string>)
    requires Tree(paths) && p in paths && paths[p] != null
    ensures forall q: seq<string> :: q in paths && q != p ==> paths[q] != paths[p]
  {
  }

  lemma GrowTree(paths: PathMap, p: seq<string>, c: string, node: VNode?)
    requires Tree(paths) && p in paths && paths[p] != null && p + [c] !in paths
    requires node == null || node !in paths.Values
    ensures Tree(paths[p + [c] := node])
  {
    assert (p + [c])[..|p + [c]| - 1] == p;
  }

  lemma GrowNamed(paths: PathMap, p: seq<string>, c: string, node: VNode?)
    requires Named(paths) && (node != null ==> node.name == c)
    ensures Named(paths[p + [c] := node])
  {
  }

  lemma SameLast(p: seq<string>, c: string, q: seq<string>, d: string)
    ensures p + [c] == q + [d] <==> p == q && c == d
  {
    if p + [c] == q + [d] {
      assert p == (p + [c])[..|p + [c]| - 1] && q == (q + [d])[..|q + [d]| - 1];
      assert (p + [c])[|p|] == c && (q + [d])[|q|] == d;
    }
  }

  function Grown(t: Tables, pp: seq<string>, name: string, node: VNode?): (r: Tables)
    requires pp in t
    ensures r.Keys == if node == null then t.Keys else t.Keys + {pp + [name]}
    ensures node != null ==> r[pp + [name]] == map[]
    ensures pp in r && r[pp] == t[pp][name := node]
    ensures forall q: seq<string> :: q in t && q != pp && q != pp + [name] ==> r[q] == t[q]
  {
    assert |pp| != |pp + [name]|;
    var r := t[pp := t[pp][name := node]];
    if node == null then r else r[pp + [name] := map[]]
  }

  /** The tables after one child has been entered into the table at pp, of former tables t. */
  lemma TablesGrow(paths: PathMap, t: Tables, pp: seq<string>, name: string, node: VNode?)
    requires forall q: seq<string> :: q in t <==> q in paths && paths[q] != null
    requires forall q: seq<string> :: q in t && q != pp ==> paths[q].children == t[q]
    requires pp in t && paths[pp].children == t[pp][name := node] && pp + [name] !in paths
    requires node != null ==> node.children == map[]
    ensures TablesOf(paths[pp + [name] := node]) == Grown(t, pp, name, node)
  {
    var paths', u := paths[pp + [name] := node], Grown(t, pp, name, node);
    forall q: seq<string> ensures q in TablesOf(paths') <==> q in u {
    }
    forall q: seq<string> | q in u ensures TablesOf(paths')[q] == u[q] {
    }
  }

  lemma GrowAt(paths: PathMap, t: Tables, pp: seq<string>, name: string, node: VNode?, p: seq<string>, c: string)
    requires Tree(paths) && pp in t && pp in paths && pp + [name] !in paths && pp + [name] !in t
    requires p in t ==> LinkedAt(paths, t, p, c)
    requires p in Grown(t, pp, name, node)
    ensures LinkedAt(paths[pp + [name] := node], Grown(t, pp, name, node), p, c)
  {
    SameLast(p, c, pp, name);
    assert |pp| != |pp + [name]|;
    if p == pp + [name] {
      assert (p + [c])[..|p + [c]| - 1] == p;
    }
  }

  /** A new entry under a directory, with or without a node, keeps paths and tables tied. */
  lemma GrowLinked(paths: PathMap, t: Tables, pp: seq<string>, name: string, node: VNode?)
    requires Linked(paths, t) && Tree(paths)
    requires pp in paths && paths[pp] != null && paths[pp].isDir && pp + [name] !in paths
    ensures Linked(paths[pp + [name] := node], Grown(t, pp, name, node))
  {
    hide LinkedAt, Grown, Tree;
    var paths', t' := paths[pp + [name] := node], Grown(t, pp, name, node);
    forall p: seq<string>, c: string | p in t' ensures LinkedAt(paths', t', p, c) {
      GrowAt(paths, t, pp, name, node, p, c);
    }
    assert |pp| != |pp + [name]|;
  }
}
