/**
  The parent and the name of a path, as making a directory cuts it at its last slash.
 */
module PathNames {
  import opened Paths

  /** Position of the last slash of a path that starts with one. */
  function LastSlash(path: string): (k: nat)
    requires |path| > 0 && path[0] == '/'
    ensures k < |path| && path[k] == '/' && '/' !in path[k + 1..]
  {
    if path[|path| - 1] == '/' then |path| - 1
    else
      var k := LastSlash(path[..|path| - 1]);
      assert path[k + 1..] == path[..|path| - 1][k + 1..] + [path[|path| - 1]];
      k
  }

  function ParentOf(path: string): (r: string)
    requires |path| > 0 && path[0] == '/'
    ensures |r| > 0 && r[0] == '/'
  {
    if LastSlash(path) == 0 then "/" else path[..LastSlash(path)]
  }

  function NameOf(path: string): (r: string)
    requires |path| > 0 && path[0] == '/'
    ensures '/' !in r
  {
    path[LastSlash(path) + 1..]
  }

  /** The components of the entry that making a directory at a path creates. */
  function Target(path: string): seq<string>
    requires |path| > 0 && path[0] == '/'
  {
    Chunks(ParentOf(path)[1..]) + [NameOf(path)]
  }

  /** The components of a path are those of its parent followed by its name exactly when
      the name fits the resolver's buffer. */
  lemma NewName(path: string)
    requires |path| > 0 && path[0] == '/' && |NameOf(path)| > 0
    ensures Target(path) == Chunks(path[1..]) <==> |NameOf(path)| <= COMPONENT_MAX
  {
    hide Chunks, LastSlash;
    var pos, name := LastSlash(path), NameOf(path);
    ChunksOfName(name);
    if pos == 0 {
      NoChunks(ParentOf(path)[1..]);
      assert path[1..] == name;
    } else {
      assert path[1..] == path[..pos][1..] + "/" + name;
      ChunksJoin(path[..pos][1..], name);
    }
    SameTail(Chunks(ParentOf(path)[1..]), [name], Chunks(name));
  }

  /** One turn of the resolver's loop reads one chunk. */
  lemma NextComponent(path: string, from: nat, p: nat)
    requires from < |path| && from <= p <= |path| && p - from <= COMPONENT_MAX
    requires forall j: nat :: from <= j < p ==> path[j] != '/'
    requires p == |path| || path[p] == '/' || p - from == COMPONENT_MAX
    ensures Chunks(path[from..])
            == Component(path[from..], p - from)
               + Chunks(if p < |path| && path[p] == '/' then path[p + 1..] else path[p..])
    ensures path[from..][..p - from] == path[from..p]
  {
    hide Chunks, Span;
    var s, k := path[from..], p - from;
    assert forall j: nat :: j < k ==> s[j] == path[from + j];
    SpanUnique(s, COMPONENT_MAX, k);
    ChunksUnfold(s, k);
    assert k < |s| ==> s[k] == path[p];
    assert s[k..] == path[p..];
    if k < |s| && s[k] == '/' {
      assert s[k + 1..] == path[p + 1..];
    }
  }

  /** A directory name of 256 characters under the root. */
  function LongPath(): (path: string)
    ensures |path| == COMPONENT_MAX + 2 && path[0] == '/'
  {
    "/" + LongName()
  }

  function LongName(): (name: string)
    ensures |name| == COMPONENT_MAX + 1 && '/' !in name
  {
    seq(COMPONENT_MAX + 1, _ => 'a')
  }

  /** The directory is entered under its whole name, and the path leads to an entry of 255
      characters and on to another one. */
  lemma LongPathParts()
    ensures NameOf(LongPath()) == LongName() && ParentOf(LongPath()) == "/" && Target(LongPath()) == [LongName()]
    ensures Chunks(LongPath()[1..]) == [LongName()[..COMPONENT_MAX], "a"]
  {
    hide Chunks, LongName, Span;
    var name := LongName();
    assert LongPath()[1..] == name;
    NoSlash(name);
    assert "/"[1..] == "";
    NoChunks("");
    LongChunks();
  }

  lemma LongChunks()
    ensures Chunks(LongName()) == [LongName()[..COMPONENT_MAX], "a"]
  {
    hide Chunks, Span;
    var name := LongName();
    SpanUnique(name, COMPONENT_MAX, COMPONENT_MAX);
    ChunksUnfold(name, COMPONENT_MAX);
    assert Skip(name, COMPONENT_MAX) == "a";
    ChunksOfName("a");
  }

  lemma {:induction false} NoSlash(name: string)
    requires |name| > 0 && '/' !in name
    ensures LastSlash("/" + name) == 0
    ensures NameOf("/" + name) == name && ParentOf("/" + name) == "/"
  {
    var path := "/" + name;
    if |name| > 1 {
      NoSlash(name[..|name| - 1]);
      assert path[..|path| - 1] == "/" + name[..|name| - 1];
    } else {
      assert path[..|path| - 1] == "/";
    }
    assert path[|path| - 1] == name[|name| - 1];
    assert path[1..] == name;
  }
}
