/**
  Path components.  `Chunks` is what the resolver's loop makes of a path, with its buffer
  of 255 characters; `Split` is the list of the non-empty components between slashes.
 */
module Paths {

  const COMPONENT_MAX: nat := 255

  /** Length of the longest prefix of at most n characters without a slash. */
  function Span(s: string, n: nat): (k: nat)
    ensures k <= |s| && k <= n
    ensures forall j: nat :: j < k ==> s[j] != '/'
    ensures k < n && k < |s| ==> s[k] == '/'
  {
    if n == 0 || |s| == 0 || s[0] == '/' then 0 else 1 + Span(s[1..], n - 1)
  }

  function Skip(s: string, k: nat): (r: string)
    requires k <= |s|
    ensures |r| <= |s| - k
  {
    if k < |s| && s[k] == '/' then s[k + 1..] else s[k..]
  }

  function Component(s: string, k: nat): seq<string>
    requires k <= |s|
  {
    if k == 0 then [] else [s[..k]]
  }

  function Chunks(s: string): (r: seq<string>)
    decreases |s|
  {
    if |s| == 0 then [] else
    var k := Span(s, COMPONENT_MAX);
    assert k == 0 ==> s[0] == '/';
    Component(s, k) + Chunks(Skip(s, k))
  }

  function Split(s: string): (r: seq<string>)
    decreases |s|
  {
    if |s| == 0 then [] else
    var k := Span(s, |s|);
    assert k == 0 ==> s[0] == '/';
    Component(s, k) + Split(Skip(s, k))
  }

  ghost predicate Short(comps: seq<string>) {
    forall i: nat :: i < |comps| ==> |comps[i]| <= COMPONENT_MAX
  }

  lemma {:induction false} SpanUnique(s: string, n: nat, k: nat)
    requires k <= |s| && k <= n && forall j: nat :: j < k ==> s[j] != '/'
    requires k == n || k == |s| || s[k] == '/'
    ensures Span(s, n) == k
  {
    if k > 0 {
      assert forall j: nat :: j < k - 1 ==> s[1..][j] == s[j + 1];
      SpanUnique(s[1..], n - 1, k - 1);
    }
  }

  lemma {:induction false} ChunksShort(s: string)
    ensures Short(Chunks(s))
    decreases |s|
  {
    if |s| != 0 {
      ChunksShort(Skip(s, Span(s, COMPONENT_MAX)));
    }
  }

  /** The resolver sees the components of a path exactly when none is longer than its
      buffer. */
  lemma {:induction false} ChunksAreComponents(s: string)
    ensures Chunks(s) == Split(s) <==> Short(Split(s))
    decreases |s|
  {
    ChunksShort(s);
    if |s| != 0 {
      var k := Span(s, |s|);
      if k <= COMPONENT_MAX {
        SpanUnique(s, COMPONENT_MAX, k);
        ChunksAreComponents(Skip(s, k));
        ShortConcat(Component(s, k), Split(Skip(s, k)));
        SameTail(Component(s, k), Chunks(Skip(s, k)), Split(Skip(s, k)));
      } else {
        assert |Split(s)[0]| == k;
      }
    }
  }

  lemma ShortConcat(a: seq<string>, b: seq<string>)
    requires Short(a)
    ensures Short(a + b) <==> Short(b)
  {
    if Short(a + b) {
      forall i: nat | i < |b| ensures |b[i]| <= COMPONENT_MAX { assert (a + b)[|a| + i] == b[i]; }
    }
  }

  lemma SameTail<T>(a: seq<T>, b: seq<T>, c: seq<T>)
    ensures a + b == a + c <==> b == c
  {
    if a + b == a + c {
      assert b == (a + b)[|a|..] && c == (a + c)[|a|..];
    }
  }

  lemma ChunksUnfold(s: string, k: nat)
    requires |s| > 0 && k == Span(s, COMPONENT_MAX)
    ensures Chunks(s) == Component(s, k) + Chunks(Skip(s, k))
    ensures k == 0 ==> s[0] == '/'
  {
    hide Span;
  }

  lemma NoChunks(s: string)
    requires |s| == 0
    ensures Chunks(s) == []
  {
  }

  /** A slash separates: the components of "a/b" are those of a followed by those of b. */
  lemma {:induction false} ChunksJoin(a: string, b: string)
    ensures Chunks(a + "/" + b) == Chunks(a) + Chunks(b)
    decreases |a|
  {
    hide Chunks, Span;
    var s := a + "/" + b;
    if |a| == 0 {
      NoChunks(a);
      assert s[0] == '/';
      SpanUnique(s, COMPONENT_MAX, 0);
      ChunksUnfold(s, 0);
      assert Skip(s, 0) == b;
    } else {
      var k := Span(a, COMPONENT_MAX);
      assert s[..k] == a[..k] && (k < |a| ==> s[k] == a[k]);
      SpanUnique(s, COMPONENT_MAX, k);
      ChunksUnfold(s, k);
      ChunksUnfold(a, k);
      var rest := Skip(a, k);
      if k < |a| {
        assert Skip(s, k) == rest + "/" + b;
        ChunksJoin(rest, b);
        assert Component(a, k) + (Chunks(rest) + Chunks(b)) == (Component(a, k) + Chunks(rest)) + Chunks(b);
      } else {
        assert s[k] == '/' && Skip(s, k) == b;
        NoChunks(rest);
        assert Chunks(a) == Component(a, k);
      }
    }
  }

  /** A single name without slashes is one component exactly when it fits the buffer. */
  lemma ChunksOfName(name: string)
    requires |name| > 0 && '/' !in name
    ensures Chunks(name) == [name] <==> |name| <= COMPONENT_MAX
  {
    hide Chunks, Span;
    ChunksShort(name);
    if |name| <= COMPONENT_MAX {
      SpanUnique(name, COMPONENT_MAX, |name|);
      ChunksUnfold(name, |name|);
      NoChunks(Skip(name, |name|));
      assert name[..|name|] == name;
    } else if Chunks(name) == [name] {
      assert |Chunks(name)[0]| == |name|;
    }
  }
}
