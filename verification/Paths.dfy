/** Path names: skipelem and namex of kernel/xv6fs/fs.c. */
module Paths {
  import opened Bits
  import opened Dirents

  const SLASH: byte := 47
  const ROOTINO: nat := 1

  type Path = p: seq<byte> | 0 !in p witness []

  // The pieces between slashes, empty ones included: always at least one.
  function Split(p: seq<byte>): (r: seq<seq<byte>>)
    ensures |r| > 0
  {
    if p == [] then [[]]
    else if p[0] == SLASH then [[]] + Split(p[1..])
    else [[p[0]] + Split(p[1..])[0]] + Split(p[1..])[1..]
  }

  function Truncate(s: seq<byte>): (r: seq<byte>)
    ensures |r| == (if |s| < 14 then |s| else 14) && forall k :: 0 <= k < |r| ==> r[k] == s[k]
  {
    if |s| >= DIRSIZ then s[..DIRSIZ] else s
  }

  function Elements(pieces: seq<seq<byte>>): seq<seq<byte>> {
    if pieces == [] then []
    else (if pieces[0] == [] then [] else [Truncate(pieces[0])]) + Elements(pieces[1..])
  }

  /** The elements of a path: the non-empty pieces between slashes, cut to 14 bytes. */
  function Components(p: seq<byte>): seq<seq<byte>> {
    Elements(Split(p))
  }

  lemma LeadingSlash(p: seq<byte>)
    requires p != [] && p[0] == SLASH
    ensures Components(p) == Components(p[1..])
  {
    assert Split(p)[1..] == Split(p[1..]);
  }

  lemma {:induction false} SplitAt(p: seq<byte>, n: nat)
    requires n <= |p| && SLASH !in p[..n] && (n == |p| || p[n] == SLASH)
    ensures Split(p)[0] == p[..n]
    ensures Split(p)[1..] == if n == |p| then [] else Split(p[n + 1..])
  {
    if n > 0 {
      assert p[1..][..n - 1] == p[..n][1..];
      assert p[..n] == [p[0]] + p[1..][..n - 1];
      SplitAt(p[1..], n - 1);
      if n < |p| {
        assert p[1..][n..] == p[n + 1..];
      }
    }
  }

  // A first element of n bytes, up to a slash or the end.
  lemma FirstElement(p: seq<byte>, n: nat)
    requires 0 < n <= |p| && SLASH !in p[..n] && (n == |p| || p[n] == SLASH)
    ensures Components(p) == [Truncate(p[..n])] + Components(p[n..])
  {
    SplitAt(p, n);
    if n == |p| {
      assert p[n..] == [];
      assert Split(p) == [p[..n]];
      assert Elements([[]]) == [] + Elements([[]][1..]);
    } else {
      assert Split(p) == [p[..n]] + Split(p[n + 1..]);
      assert p[n..][1..] == p[n + 1..];
      LeadingSlash(p[n..]);
    }
  }

  lemma NoElements()
    ensures Components([]) == []
  {
    assert Elements([[]]) == [] + Elements([[]][1..]);
  }

  lemma {:induction false} SplitJoined(p: seq<byte>, q: seq<byte>)
    ensures Split(p + [SLASH] + q) == Split(p) + Split(q)
  {
    var r := p + [SLASH] + q;
    if p == [] {
      assert r[1..] == q;
    } else {
      assert r[1..] == p[1..] + [SLASH] + q;
      SplitJoined(p[1..], q);
    }
  }

  lemma {:induction false} ElementsOfBoth(a: seq<seq<byte>>, b: seq<seq<byte>>)
    ensures Elements(a + b) == Elements(a) + Elements(b)
  {
    if a == [] {
      assert a + b == b;
    } else {
      assert (a + b)[1..] == a[1..] + b;
      ElementsOfBoth(a[1..], b);
    }
  }

  /** A slash between two paths joins their elements, whatever slashes there are besides. */
  lemma JoinedComponents(p: seq<byte>, q: seq<byte>)
    ensures Components(p + [SLASH] + q) == Components(p) + Components(q)
  {
    SplitJoined(p, q);
    ElementsOfBoth(Split(p), Split(q));
  }

  // The names, each after a slash.
  function Joined(names: seq<seq<byte>>): (p: seq<byte>) {
    if names == [] then [] else [SLASH] + names[0] + Joined(names[1..])
  }

  /** The elements of a path made of names are those names, each cut to 14 bytes. */
  lemma {:induction false} ComponentsOfNames(names: seq<seq<byte>>)
    requires forall i :: 0 <= i < |names| ==> names[i] != [] && SLASH !in names[i]
    ensures var c := Components(Joined(names));
            |c| == |names| && forall i :: 0 <= i < |c| ==> c[i] == Truncate(names[i])
  {
    NoElements();
    if names != [] {
      var n, rest := |names[0]|, Joined(names[1..]);
      var p := names[0] + rest;
      LeadingSlash(Joined(names));
      assert Joined(names)[1..] == p && p[..n] == names[0] && p[n..] == rest;
      FirstElement(p, n);
      ComponentsOfNames(names[1..]);
    }
  }

  datatype Element = NoElement | Element(name: Name, rest: Path)

  method SkipSlashes(path: Path) returns (rest: Path)
    ensures Components(rest) == Components(path) && |rest| <= |path|
    ensures rest == [] || rest[0] != SLASH
  {
    var i := 0;
    while i < |path| && path[i] == SLASH
      invariant 0 <= i <= |path| && Components(path[i..]) == Components(path)
    {
      LeadingSlash(path[i..]);
      assert path[i..][1..] == path[i + 1..];
      i := i + 1;
    }
    rest := path[i..];
  }

  /** The first element of the path, and what follows it past its slashes; the rest is empty only
      when it was the last element. */
  method SkipElem(path: Path) returns (r: Element)
    ensures r.NoElement? ==> Components(path) == []
    ensures r.Element? ==> Components(path) == [r.name] + Components(r.rest) && |r.rest| < |path|
    ensures r.Element? ==> (r.rest == [] <==> Components(r.rest) == [])
  {
    var s := SkipSlashes(path);
    if s == [] {
      NoElements();
      return NoElement;
    }
    var len := 0;
    while len < |s| && s[len] != SLASH
      invariant 0 <= len <= |s| && SLASH !in s[..len]
    {
      assert s[..len + 1] == s[..len] + [s[len]];
      len := len + 1;
    }
    assert len > 0;
    FirstElement(s, len);
    var name: Name := if len >= DIRSIZ then s[..DIRSIZ] else s[..len];
    assert name == Truncate(s[..len]);
    var rest := SkipSlashes(s[len..]);
    NoElements();
    if rest != [] {
      NonEmptyRest(rest);
    }
    return Element(name, rest);
  }

  lemma NonEmptyRest(p: seq<byte>)
    requires p != [] && p[0] != SLASH
    ensures Components(p) != []
  {
    assert Split(p)[0] == [p[0]] + Split(p[1..])[0];
  }
}
