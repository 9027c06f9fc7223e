/** Path names (fs.c:579-609): the components of a path, and what they mean in a tree of directories. */
module Paths {
  import opened Common
  import opened Directory

  // ---- Components ----------------------------------------------------------------------------

  function SkipSlashes(path: string): (r: string)
    ensures |r| <= |path| && (r != [] ==> r[0] != '/') && (path != [] && path[0] != '/' ==> r == path)
  {
    if path != [] && path[0] == '/' then SkipSlashes(path[1..]) else path
  }

  /** The position of the first slash from i on, or the end. */
  function HeadEnd(path: string, i: nat): (j: nat)
    requires i <= |path|
    ensures i <= j <= |path| && (j < |path| ==> path[j] == '/') && forall k :: i <= k < j ==> path[k] != '/'
    decreases |path| - i
  {
    if i < |path| && path[i] != '/' then HeadEnd(path, i + 1) else i
  }

  /** The characters before the first slash. */
  function Head(path: string): (r: string)
    ensures |r| <= |path|
  {
    path[..HeadEnd(path, 0)]
  }

  /** The non-empty components between slashes, each cut to what directories tell apart. */
  function Components(path: string): (r: seq<string>)
    decreases |path|
  {
    var p := SkipSlashes(path);
    if p == [] then [] else [Key(Head(p))] + Components(p[|Head(p)|..])
  }

  datatype Elem = NoElem | Elem(name: string, rest: string)

  method PastSlashes(path: string) returns (p: string)
    ensures p == SkipSlashes(path)
  {
    p := path;
    while p != [] && p[0] == '/'
      invariant SkipSlashes(p) == SkipSlashes(path)
    {
      p := p[1..];
    }
  }

  method HeadLength(p: string) returns (len: nat)
    ensures len <= |p| && Head(p) == p[..len]
  {
    len := 0;
    while len < |p| && p[len] != '/'
      invariant 0 <= len <= |p| && HeadEnd(p, len) == HeadEnd(p, 0)
    {
      len := len + 1;
    }
  }

  /** skipelem: the first component and what follows it, without leading slashes. */
  method Skipelem(path: string) returns (r: Elem)
    ensures r.NoElem? <==> Components(path) == []
    ensures r.Elem? ==> Components(path) == [r.name] + Components(r.rest) && |r.rest| < |path|
    ensures r.Elem? ==> (r.rest == [] <==> Components(r.rest) == [])
  {
    hide SkipSlashes, Head, Components;
    var p := PastSlashes(path);
    ComponentsStep(path);
    if p == [] { return NoElem; }
    var len := HeadLength(p);
    var name := if len >= DIRSIZ then p[..DIRSIZ] else p[..len];
    assert name == Key(p[..len]);
    var rest := PastSlashes(p[len..]);
    ComponentsStep(p[len..]);
    ComponentsStep(rest);
    r := Elem(name, rest);
  }

  lemma ComponentsStep(path: string)
    ensures SkipSlashes(SkipSlashes(path)) == SkipSlashes(path) && Components(SkipSlashes(path)) == Components(path)
    ensures SkipSlashes(path) == [] <==> Components(path) == []
    ensures var p := SkipSlashes(path); p != [] ==> |Head(p)| > 0 && Components(path) == [Key(Head(p))] + Components(p[|Head(p)|..])
  {
  }

  /** What the components are, by two laws that say nothing about slashes skipped or words cut off: a word is
      its own component, and a slash separates. */
  lemma ComponentsOfWord(w: string)
    requires forall k :: 0 <= k < |w| ==> w[k] != '/'
    ensures Components(w) == if w == [] then [] else [Key(w)]
  {
    hide SkipSlashes, Components;
    ComponentsStep(w);
    if w != [] {
      WholeHead(w, 0);
      assert w[..|w|] == w && w[|w|..] == [];
      ComponentsOfWord([]);
    }
  }

  lemma {:induction false} WholeHead(w: string, i: nat)
    requires i <= |w| && forall k :: i <= k < |w| ==> w[k] != '/'
    ensures HeadEnd(w, i) == |w|
    decreases |w| - i
  {
    if i < |w| { WholeHead(w, i + 1); }
  }

  lemma {:induction false} SameHead(a: string, b: string, i: nat)
    requires i <= |a|
    ensures HeadEnd(a + "/" + b, i) == HeadEnd(a, i)
    decreases |a| - i
  {
    if i < |a| && a[i] != '/' { SameHead(a, b, i + 1); }
  }

  lemma LeadingSlash(a: string)
    ensures Components("/" + a) == Components(a)
  {
    hide Components;
    assert ("/" + a)[1..] == a;
    assert SkipSlashes("/" + a) == SkipSlashes(a);
    ComponentsStep("/" + a);
    ComponentsStep(a);
  }

  lemma LeadingWord(a: string)
    requires a != [] && a[0] != '/'
    ensures var h := HeadEnd(a, 0); h > 0 && Components(a) == [Key(a[..h])] + Components(a[h..])
  {
    hide Components;
    ComponentsStep(a);
  }

  lemma {:induction false} ComponentsJoin(a: string, b: string)
    ensures Components(a + "/" + b) == Components(a) + Components(b)
    decreases |a|
  {
    hide Components, SkipSlashes;
    var c := a + "/" + b;
    if a == [] {
      assert c == "/" + b;
      LeadingSlash(b);
      ComponentsOfWord([]);
    } else if a[0] == '/' {
      var rest := a[1..] + "/" + b;
      assert c == "/" + rest && a == "/" + a[1..];
      LeadingSlash(rest);
      LeadingSlash(a[1..]);
      ComponentsJoin(a[1..], b);
    } else {
      SameHead(a, b, 0);
      LeadingWord(a);
      LeadingWord(c);
      var h := HeadEnd(a, 0);
      assert c[h..] == a[h..] + "/" + b && c[..h] == a[..h];
      ComponentsJoin(a[h..], b);
    }
  }

  // ---- The tree of directories ---------------------------------------------------------------

  datatype Id = Id(dev: nat, inum: nat)

  datatype Option<T> = None | Some(value: T)

  const ROOTDEV := 1

  /** An inode of the device that holds the root. */
  function OnRoot(inum: nat): (id: Id) {
    Id(ROOTDEV, inum)
  }

  const ROOT := OnRoot(1)

  /** Which inodes are directories, what is in them, and how many links each inode has. */
  datatype Tree = Tree(dirs: map<Id, map<string, nat>>, links: map<Id, int>)

  function Child(t: Tree, id: Id, name: string): (r: Option<Id>) {
    if id in t.dirs && name in t.dirs[id] && t.dirs[id][name] != 0 then Some(Id(id.dev, t.dirs[id][name])) else None
  }

  /** Following names one after the other. */
  function Follow(t: Tree, id: Id, names: seq<string>): (r: Option<Id>)
    decreases |names|
  {
    if names == [] then Some(id)
    else
      var next := Child(t, id, names[0]);
      if next.None? then None else Follow(t, next.value, names[1..])
  }

  /** What a path means from a starting inode; the parent form stops before the last name, at a
      directory. */
  function Resolve(t: Tree, id: Id, names: seq<string>, parent: bool): (r: Option<Id>) {
    if !parent then Follow(t, id, names)
    else if names == [] then None
    else
      var r := Follow(t, id, names[..|names| - 1]);
      if r.Some? && r.value in t.dirs then r else None
  }

  lemma ResolveStep(t: Tree, id: Id, names: seq<string>, parent: bool)
    requires names != []
    ensures id !in t.dirs ==> Resolve(t, id, names, parent) == None
    ensures parent && |names| == 1 && id in t.dirs ==> Resolve(t, id, names, parent) == Some(id)
    ensures !(parent && |names| == 1) && Child(t, id, names[0]).None? ==> Resolve(t, id, names, parent) == None
    ensures !(parent && |names| == 1) && Child(t, id, names[0]).Some? ==>
      Resolve(t, id, names, parent) == Resolve(t, Child(t, id, names[0]).value, names[1..], parent)
  {
    if parent {
      var m := names[..|names| - 1];
      if |names| > 1 {
        assert m[1..] == names[1..][..|names| - 2] && m[0] == names[0];
      } else {
        assert m == [];
      }
    }
  }

  lemma ResolveEnd(t: Tree, id: Id, parent: bool)
    ensures Resolve(t, id, [], parent) == if parent then None else Some(id)
  {
  }

  /** The inodes that a walk locks and then leaves for another one, or leaves because it fails there. */
  function LeftBehind(t: Tree, id: Id, names: seq<string>, parent: bool): (s: set<Id>)
    decreases |names|
  {
    if names == [] then {}
    else if id !in t.dirs then {id}
    else if parent && |names| == 1 then {}
    else
      var next := Child(t, id, names[0]);
      if next.None? then {id}
      else (if next.value == id then {} else {id}) + LeftBehind(t, next.value, names[1..], parent)
  }

  /** Every inode that a directory names has a link, and so has the root. */
  ghost predicate Linked(t: Tree) {
    && ROOT in t.links && t.links[ROOT] > 0
    && forall id, name :: Child(t, id, name).Some? ==> Child(t, id, name).value in t.links && t.links[Child(t, id, name).value] > 0
  }

  /** In such a tree everything left behind but the starting inode has a link. */
  lemma {:induction false} LinkedBehind(t: Tree, id: Id, names: seq<string>, parent: bool, x: Id)
    requires Linked(t) && x in LeftBehind(t, id, names, parent)
    ensures x == id || (x in t.links && t.links[x] > 0)
    decreases |names|
  {
    if names != [] && id in t.dirs && !(parent && |names| == 1) {
      var next := Child(t, id, names[0]);
      if next.Some? && x != id { LinkedBehind(t, next.value, names[1..], parent, x); }
    }
  }

  /** One name more. */
  lemma {:induction false} FollowMore(t: Tree, id: Id, names: seq<string>, name: string)
    ensures Follow(t, id, names).None? ==> Follow(t, id, names + [name]).None?
    ensures Follow(t, id, names).Some? ==> Follow(t, id, names + [name]) == Child(t, Follow(t, id, names).value, name)
    decreases |names|
  {
    if names == [] {
      assert [name][1..] == [] && names + [name] == [name];
    } else {
      assert (names + [name])[0] == names[0] && (names + [name])[1..] == names[1..] + [name];
      var next := Child(t, id, names[0]);
      if next.Some? { FollowMore(t, next.value, names[1..], name); }
    }
  }

  /** The names of a path without NUL have none, and are already cut. */
  lemma ComponentNames(path: string)
    requires NoNul(path)
    ensures forall k :: 0 <= k < |Components(path)| ==> NoNul(Components(path)[k]) && Key(Components(path)[k]) == Components(path)[k]
    decreases |path|
  {
    var p := SkipSlashes(path);
    Suffix(path);
    if p != [] {
      ComponentsStep(path);
      ComponentNames(p[|Head(p)|..]);
    }
  }

  lemma Suffix(path: string)
    ensures NoNul(path) ==> NoNul(SkipSlashes(path))
    decreases |path|
  {
    if path != [] && path[0] == '/' { Suffix(path[1..]); }
  }
}
