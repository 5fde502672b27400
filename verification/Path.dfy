/** Path names: skipelem and namex (src/fs.c). A `char*` is the string from there on. */
module Path {
  import opened Options
  import opened DirTree

  function SkipSlashes(path: string): (r: string)
    ensures |r| <= |path| && (r != "" ==> r[0] != '/')
  {
    if path != "" && path[0] == '/' then SkipSlashes(path[1..]) else path
  }

  /** Length of the element a path starts with. */
  function ElementLength(path: string): (n: nat)
    ensures n <= |path| && (path != "" && path[0] != '/' ==> n > 0)
    ensures (n < |path| ==> path[n] == '/') && forall i | 0 <= i < n :: path[i] != '/'
  {
    if path == "" || path[0] == '/' then 0 else 1 + ElementLength(path[1..])
  }

  function Clipped(name: string): string {
    if |name| > DIRSIZ then name[..DIRSIZ] else name
  }

  /** The elements of a path, each cut to DIRSIZ characters. */
  function Elements(path: string): seq<string>
    decreases |path|
  {
    var p := SkipSlashes(path);
    if p == "" then []
    else
      var n := ElementLength(p);
      [Clipped(p[..n])] + Elements(p[n..])
  }

  /** Empty elements do not count, wherever they are. */
  lemma {:induction false} SlashesDoNotCount(path: string)
    ensures Elements(SkipSlashes(path)) == Elements(path)
    ensures SkipSlashes(path) == "" <==> Elements(path) == []
  {}

  /** `name` is the element from `i` to `j`, cut to DIRSIZ characters, after slashes; after it
      come slashes up to `k`, and then `rest`. */
  ghost predicate Takes(path: string, name: string, rest: string, i: nat, j: nat, k: nat) {
    && i < j <= k <= |path| && rest == path[k..] && (rest != "" ==> rest[0] != '/')
    && (forall m | 0 <= m < i || j <= m < k :: path[m] == '/') && (forall m | i <= m < j :: path[m] != '/')
    && (j < |path| ==> path[j] == '/')
    && |name| == (if j - i < 14 then j - i else 14) && name == path[i..i + |name|]
  }

  /** skipelem takes off the first element; no path is left, None, if there is none. What
      it leaves starts with the next element. */
  method Skipelem(path: string) returns (rest: Option<string>, name: string)
    ensures rest.None? <==> Elements(path) == []
    ensures rest.Some? ==> Elements(path) == [name] + Elements(rest.value) && |rest.value| < |path|
    ensures rest.Some? ==> (rest.value == "" <==> Elements(rest.value) == [])
    ensures rest.None? <==> forall m | 0 <= m < |path| :: path[m] == '/'
    ensures rest.Some? ==> exists i, j, k :: Takes(path, name, rest.value, i, j, k)
  {
    hide Elements, SkipSlashes, ElementLength;
    SlashesDoNotCount(path);
    name := "";
    var p := Slashless(path);
    if p == "" {
      return None, name;
    }
    var len := 0;
    while len < |p| && p[len] != '/'
      invariant 0 <= len <= |p| && forall i | 0 <= i < len :: p[i] != '/'
    {
      len := len + 1;
    }
    name := if len >= DIRSIZ then p[..DIRSIZ] else p[..len];
    var q := Slashless(p[len..]);
    SlashesDoNotCount(p[len..]);
    ElementIs(p, len);
    FirstElement(path, p, len);
    assert Takes(path, name, q, |path| - |p|, |path| - |p| + len, |path| - |q|);
    return Some(q), name;
  }

  /** The loops of skipelem over slashes. */
  method Slashless(path: string) returns (p: string)
    ensures p == SkipSlashes(path) && |p| <= |path| && p == path[|path| - |p|..] && (p != "" ==> p[0] != '/')
    ensures forall m | 0 <= m < |path| - |p| :: path[m] == '/'
  {
    p := path;
    while p != "" && p[0] == '/'
      invariant SkipSlashes(p) == SkipSlashes(path) && |p| <= |path| && p == path[|path| - |p|..]
      invariant forall m | 0 <= m < |path| - |p| :: path[m] == '/'
      decreases |p|
    {
      p := p[1..];
    }
  }

  lemma FirstElement(path: string, p: string, len: nat)
    requires p == SkipSlashes(path) && p != "" && len <= |p| && ElementLength(p) == len
    ensures Elements(path) == [if len >= DIRSIZ then p[..DIRSIZ] else p[..len]] + Elements(p[len..])
  {
    assert len >= DIRSIZ ==> p[..len][..DIRSIZ] == p[..DIRSIZ];
    assert Clipped(p[..len]) == if len >= DIRSIZ then p[..DIRSIZ] else p[..len];
  }

  lemma {:induction false} ElementIs(p: string, len: nat)
    requires len <= |p| && (forall i | 0 <= i < len :: p[i] != '/') && (len < |p| ==> p[len] == '/')
    ensures ElementLength(p) == len
  {}

  // ---- walking the tree ----

  /** What namex finds from inode `ip` on: the inode of the path, or with `parent` the
      directory that holds its last element. */
  function Resolve(nodes: seq<Node>, ip: int, es: seq<string>, parent: bool): (r: Option<int>)
    ensures parent && r.Some? ==> es != [] && 0 <= r.value < |nodes| && nodes[r.value].kind == T_DIR
    decreases |es|
  {
    if es == [] then if parent then None else Some(ip)
    else if !(0 <= ip < |nodes|) || nodes[ip].kind != T_DIR then None
    else if parent && |es| == 1 then Some(ip)
    else
      var k := Lookup(nodes[ip].entries, es[0], 0);
      if k == |nodes[ip].entries| then None else Resolve(nodes, nodes[ip].entries[k].inum, es[1..], parent)
  }

  /** A path that starts with a slash is walked from the root, any other from `cwd`. */
  function Start(path: string, cwd: int): int {
    if path != "" && path[0] == '/' then ROOT else cwd
  }

  /** namex: namei, or with `parent` nameiparent, whose answer comes with the name of the
      last element. */
  method Namex(nodes: seq<Node>, cwd: int, path: string, parent: bool) returns (r: Option<int>, name: string)
    ensures r == Resolve(nodes, Start(path, cwd), Elements(path), parent)
    ensures r == Resolve(nodes, if path != "" && path[0] == '/' then ROOT else cwd, Elements(path), parent)
    ensures parent && r.Some? ==> Elements(path) != [] && name == Elements(path)[|Elements(path)| - 1]
  {
    hide Elements;
    var start := if path != "" && path[0] == '/' then ROOT else cwd;
    var ip, p := start, path;
    name := "";
    while true
      invariant Resolve(nodes, ip, Elements(p), parent) == Resolve(nodes, start, Elements(path), parent)
      invariant Elements(path) != [] && Elements(p) != [] ==>
        Elements(p)[|Elements(p)| - 1] == Elements(path)[|Elements(path)| - 1]
      invariant Elements(path) == [] ==> Elements(p) == []
      decreases |p|
    {
      var rest;
      rest, name := Skipelem(p);
      if rest.None? {
        break;
      }
      assert Elements(p)[1..] == Elements(rest.value);
      if !(0 <= ip < |nodes|) || nodes[ip].kind != T_DIR {
        return None, name;
      }
      if parent && rest.value == "" {
        return Some(ip), name;
      }
      var es, k := nodes[ip].entries, 0;
      while k < |es| && !(es[k].inum != 0 && es[k].name == name)
        invariant 0 <= k <= |es| && Lookup(es, name, k) == Lookup(es, name, 0)
      {
        k := k + 1;
      }
      if k == |es| {
        return None, name;
      }
      ip, p := es[k].inum, rest.value;
    }
    return if parent then None else Some(ip), name;
  }

  /** A chain of inodes, each but the last a directory in which an element finds the next. */
  ghost predicate Walk(nodes: seq<Node>, ips: seq<int>, es: seq<string>) {
    && |ips| == |es| + 1
    && forall i {:trigger ips[i]} | 0 <= i < |es| ::
         && 0 <= ips[i] < |nodes| && nodes[ips[i]].kind == T_DIR
         && Finds(nodes[ips[i]].entries, es[i]) == ips[i + 1] != 0
  }

  /** namei finds an inode exactly if a chain leads there. */
  lemma {:induction false} WalkResolves(nodes: seq<Node>, ips: seq<int>, es: seq<string>)
    requires Walk(nodes, ips, es)
    ensures Resolve(nodes, ips[0], es, false) == Some(ips[|es|])
    decreases |es|
  {
    if es != [] {
      assert Finds(nodes[ips[0]].entries, es[0]) == ips[1];
      assert forall i | 0 <= i < |es| - 1 :: ips[1..][i] == ips[i + 1] && es[1..][i] == es[i + 1];
      WalkResolves(nodes, ips[1..], es[1..]);
    }
  }

  lemma {:induction false} ResolveWalks(nodes: seq<Node>, ip: int, es: seq<string>) returns (ips: seq<int>)
    requires Resolve(nodes, ip, es, false).Some?
    ensures Walk(nodes, ips, es) && ips[0] == ip && Some(ips[|es|]) == Resolve(nodes, ip, es, false)
    decreases |es|
  {
    ips := [ip];
    if es != [] {
      var k := Lookup(nodes[ip].entries, es[0], 0);
      var more := ResolveWalks(nodes, nodes[ip].entries[k].inum, es[1..]);
      ips := [ip] + more;
      assert forall i | 1 <= i < |es| :: ips[i] == more[i - 1] && es[i] == es[1..][i - 1];
    }
  }

  /** nameiparent finds the directory before the last element, if it is one. */
  lemma ParentIsBeforeLast(nodes: seq<Node>, ip: int, es: seq<string>, d: int)
    ensures Resolve(nodes, ip, es, true) == Some(d) <==>
      && es != [] && Resolve(nodes, ip, es[..|es| - 1], false) == Some(d)
      && 0 <= d < |nodes| && nodes[d].kind == T_DIR
  {
    if es != [] {
      var init, last := es[..|es| - 1], [es[|es| - 1]];
      assert es == init + last;
      ResolveInSteps(nodes, ip, init, last, true);
    }
  }

  /** A path is walked element by element: first `es`, then `fs` from where that led. */
  lemma {:induction false} ResolveInSteps(nodes: seq<Node>, ip: int, es: seq<string>, fs: seq<string>, parent: bool)
    requires fs != [] || !parent
    ensures Resolve(nodes, ip, es + fs, parent) ==
      var mid := Resolve(nodes, ip, es, false); if mid.None? then None else Resolve(nodes, mid.value, fs, parent)
    decreases |es|
  {
    if es == [] {
      assert es + fs == fs;
    } else {
      assert (es + fs)[1..] == es[1..] + fs;
      if 0 <= ip < |nodes| && nodes[ip].kind == T_DIR {
        var k := Lookup(nodes[ip].entries, es[0], 0);
        if k < |nodes[ip].entries| {
          ResolveInSteps(nodes, nodes[ip].entries[k].inum, es[1..], fs, parent);
        }
      }
    }
  }

  /** nameiparent and then dirlookup of the last element is namei. */
  lemma ParentThenLookup(nodes: seq<Node>, ip: int, es: seq<string>)
    requires es != []
    ensures var d, name := Resolve(nodes, ip, es, true), es[|es| - 1];
      Resolve(nodes, ip, es, false) ==
        if d.None? then None
        else
          var k := Lookup(nodes[d.value].entries, name, 0);
          if k == |nodes[d.value].entries| then None else Some(nodes[d.value].entries[k].inum)
  {
    var last := [es[|es| - 1]];
    assert es == es[..|es| - 1] + last;
    ResolveInSteps(nodes, ip, es[..|es| - 1], last, true);
    ResolveInSteps(nodes, ip, es[..|es| - 1], last, false);
    var mid := Resolve(nodes, ip, es[..|es| - 1], false);
    if mid.Some? && 0 <= mid.value < |nodes| && nodes[mid.value].kind == T_DIR {
      var k := Lookup(nodes[mid.value].entries, last[0], 0);
      if k < |nodes[mid.value].entries| {
        assert Resolve(nodes, nodes[mid.value].entries[k].inum, last[1..], false)
          == Some(nodes[mid.value].entries[k].inum);
      }
    }
  }

  /** In a tree, "." stays and ".." goes to the directory that holds the entry, or stays
      at the root. */
  lemma DotsResolve(nodes: seq<Node>, pl: map<int, Place>, d: int)
    requires Inv(nodes, pl) && d in pl
    ensures Resolve(nodes, d, ["."], false) == Some(d)
    ensures Resolve(nodes, d, [".."], false) == Some(if d == ROOT then ROOT else pl[d].up)
  {
    assert EntriesOk(nodes, pl, d) && PlaceOk(nodes, pl, d);
    var es := nodes[d].entries;
    assert Lookup(es, es[0].name, 0) == 0 && Lookup(es, es[1].name, 0) == 1;
    assert ["."][1..] == [] && [".."][1..] == [];
    assert Resolve(nodes, d, [], false) == Some(d);
  }
}
