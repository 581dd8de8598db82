/**
The inode table of the archive converter: a growing array of inodes with parent indices, the
search for a name below a parent, and the merging of one archive header.
*/
module FsInodes {
  import opened FsPaths
  import opened Options

  /** The four file type bits of a mode, S_IFMT shifted down, and their values. */
  type TypeBits = b: int | 0 <= b < 16
  const S_IFDIR: TypeBits := 4
  const S_IFREG: TypeBits := 8
  const S_IFLNK: TypeBits := 10

  datatype Inode = Inode(name: string, src: string, link: string, mode: int, size: int, uid: int, gid: int,
                         parentid: int, data: string, compressed: bool, load: bool, mtime: int)

  /** The fields of an archive header, numbers already read, and the bytes that follow it. */
  datatype Header = Header(name: string, mode: int, uid: int, gid: int, size: int, mtime: int,
                           typeflag: char, linkname: string, body: string)

  type Table = seq<Inode>

  // ---------- search ----------

  predicate Match(t: Table, i: int, name: string, parentid: int)
  {
    0 <= i < |t| && t[i].parentid == parentid && t[i].name == name
  }

  /** The first inode with this name and parent. */
  ghost function Lookup(t: Table, name: string, parentid: int): (r: Option<int>)
    ensures r.Some? ==> Match(t, r.value, name, parentid)
    ensures r.None? ==> forall i :: 0 <= i < |t| ==> !Match(t, i, name, parentid)
  {
    if t == [] then None
    else
      var r := Lookup(t[..|t| - 1], name, parentid);
      assert forall i :: 0 <= i < |t| - 1 && Match(t, i, name, parentid) ==> Match(t[..|t| - 1], i, name, parentid);
      if r.Some? then r
      else if Match(t, |t| - 1, name, parentid) then Some(|t| - 1) else None
  }

  /** Following components from a starting directory; the root of the tree is -1. */
  ghost function Resolve(t: Table, walk: seq<string>, from: int): (r: Option<int>)
  {
    if walk == [] then Some(from)
    else
      var r := Resolve(t, walk[..|walk| - 1], from);
      if r.None? then None else Lookup(t, walk[|walk| - 1], r.value)
  }

  // ---------- the forest invariant ----------

  /** Parents come before their children, so the parent links form a forest; siblings have
      different names; no name contains a slash. */
  ghost predicate Forest(t: Table)
  {
    && (forall i :: 0 <= i < |t| ==> -1 <= t[i].parentid < i && NoSlash(t[i].name))
    && (forall i, k :: 0 <= i < k < |t| ==> !Match(t, i, t[k].name, t[k].parentid))
  }

  /** The components of the full path of an inode. */
  ghost function Names(t: Table, id: int): (ws: seq<string>)
    requires Forest(t) && -1 <= id < |t|
    ensures id == -1 <==> ws == []
    decreases id + 1
  {
    if id == -1 then [] else Names(t, t[id].parentid) + [t[id].name]
  }

  lemma {:induction false} NamesNoSlash(t: Table, id: int)
    requires Forest(t) && -1 <= id < |t|
    ensures AllNoSlash(Names(t, id))
    decreases id + 1
  {
    if id != -1 { NamesNoSlash(t, t[id].parentid); }
  }

  lemma {:induction false} LookupUnique(t: Table, i: int)
    requires Forest(t) && 0 <= i < |t|
    ensures Lookup(t, t[i].name, t[i].parentid) == Some(i)
  {
    var r := Lookup(t, t[i].name, t[i].parentid);
    assert Match(t, i, t[i].name, t[i].parentid);
  }

  /** Following the components of an inode leads to it. */
  lemma {:induction false} ResolveNames(t: Table, id: int)
    requires Forest(t) && -1 <= id < |t|
    ensures Resolve(t, Names(t, id), -1) == Some(id)
    decreases id + 1
  {
    if id != -1 {
      var ws := Names(t, t[id].parentid);
      ResolveNames(t, t[id].parentid);
      assert (ws + [t[id].name])[..|ws|] == ws;
      LookupUnique(t, id);
    }
  }

  /** And whatever resolves is an inode with these components. */
  lemma {:induction false} NamesOfResolved(t: Table, ws: seq<string>)
    requires Forest(t) && Resolve(t, ws, -1).Some?
    ensures -1 <= Resolve(t, ws, -1).value < |t| && Names(t, Resolve(t, ws, -1).value) == ws
  {
    if ws != [] {
      NamesOfResolved(t, ws[..|ws| - 1]);
      assert ws == ws[..|ws| - 1] + [ws[|ws| - 1]];
    }
  }

  /** The full path printed for an inode, split again and followed step by step, leads back to the
      inode, exactly when its own name is not empty. */
  lemma {:induction false} FullPathResolves(t: Table, id: int)
    requires Forest(t) && 0 <= id < |t|
    ensures Absolute(Names(t, id)) != ""
    ensures Resolve(t, Components(Absolute(Names(t, id))), -1) == Some(id) <==> t[id].name != ""
  {
    NamesNoSlash(t, id);
    ComponentsOfAbsolute(Names(t, id));
    ResolveNames(t, id);
    if t[id].name == "" {
      var ws := Names(t, t[id].parentid);
      assert (ws + [""])[..|ws|] == ws;
      ResolveNames(t, t[id].parentid);
    }
  }

  /** Two inodes never have the same full path. */
  lemma {:induction false} FullPathInjective(t: Table, a: int, b: int)
    requires Forest(t) && 0 <= a < |t| && 0 <= b < |t|
    requires Absolute(Names(t, a)) == Absolute(Names(t, b))
    ensures a == b
  {
    NamesNoSlash(t, a);
    NamesNoSlash(t, b);
    AbsoluteInjective(Names(t, a), Names(t, b));
    ResolveNames(t, a);
    ResolveNames(t, b);
  }

  // ---------- merging one header ----------

  datatype Merged = Added | Exists | NoParent | NoLink | UnknownType

  /** A header name the converter can split into at least one component. */
  predicate Named(h: Header) { |h.name| > 0 && Components(h.name) != [] }

  function Owner(id: int): int { if id != 0 && id != 1000 then 0 else id }

  function Prefix(s: string, n: nat): string { if |s| <= n then s else s[..n] }

  function FileType(mode: int): TypeBits { mode / 4096 % 16 }

  /** Bitwise or of four bits. */
  function Or(a: TypeBits, b: TypeBits): (c: TypeBits)
  {
    (if a >= 8 || b >= 8 then 8 else 0) + (if a % 8 >= 4 || b % 8 >= 4 then 4 else 0)
    + (if a % 4 >= 2 || b % 4 >= 2 then 2 else 0) + (if a % 2 >= 1 || b % 2 >= 1 then 1 else 0)
  }

  /** mode | bits, for bits in the file type field. */
  function WithType(mode: int, bits: TypeBits): int
  {
    mode + (Or(FileType(mode), bits) - FileType(mode)) * 4096
  }

  function FlagBits(typeflag: char): TypeBits
  {
    match typeflag
    case '5' => S_IFDIR
    case '0' => S_IFREG
    case _ => S_IFLNK
  }

  /** The inode MergeFile fills in for a header of a known type. */
  function Filled(h: Header, name: string, parentid: int): Inode
  {
    Inode(name, "",
          if h.typeflag == '1' then "/" + Prefix(h.linkname, 100) else Prefix(h.linkname, 100),
          WithType(h.mode, FlagBits(h.typeflag)),
          h.size, Owner(h.uid), if Owner(h.uid) == h.uid then h.gid else 0, parentid,
          if h.typeflag == '0' && h.size != 0 then h.body else "", false, false, h.mtime)
  }

  /** What becomes of a header whose path is new, by its type flag. */
  function Verdict(h: Header): Merged
  {
    match h.typeflag
    case '5' => Added
    case '0' => Added
    case '1' => if h.linkname == "" then NoLink else Added
    case '2' => if h.linkname == "" then NoLink else Added
    case _ => UnknownType
  }

  function Last(ws: seq<string>): string
    requires ws != []
  {
    ws[|ws| - 1]
  }

  function Front(ws: seq<string>): seq<string>
    requires ws != []
  {
    ws[..|ws| - 1]
  }

  /** The result of merging one header, and the table after it. */
  ghost function Merge(t: Table, h: Header): (r: (Merged, Table))
    requires Named(h)
  {
    MergeAt(t, h, Components(h.name))
  }

  ghost function MergeAt(t: Table, h: Header, walk: seq<string>): (r: (Merged, Table))
    requires walk != []
  {
    var dir := Resolve(t, Front(walk), -1);
    if dir.None? then (NoParent, t)
    else if Lookup(t, Last(walk), dir.value).Some? then (Exists, t)
    else if Verdict(h) == Added then (Added, t + [Filled(h, Last(walk), dir.value)])
    else (Verdict(h), t)
  }

  predicate Failed(m: Merged) { m == NoParent || m == NoLink || m == UnknownType }

  lemma {:induction false} AppendKeepsForest(t: Table, x: Inode)
    requires Forest(t) && -1 <= x.parentid < |t| && NoSlash(x.name) && Lookup(t, x.name, x.parentid).None?
    ensures Forest(t + [x])
  {
    var u := t + [x];
    forall i, k | 0 <= i < k < |u| ensures !Match(u, i, u[k].name, u[k].parentid) {
      if k < |t| {
        assert !Match(t, i, t[k].name, t[k].parentid);
      } else {
        assert !Match(t, i, x.name, x.parentid);
      }
    }
  }

  /** What a merge that adds an inode adds, and where. */
  lemma {:induction false} MergeAdds(t: Table, h: Header) returns (x: Inode, dir: int)
    requires Forest(t) && Named(h) && Merge(t, h).0 == Added
    ensures Resolve(t, Front(Components(h.name)), -1) == Some(dir)
    ensures -1 <= dir < |t| && Names(t, dir) == Front(Components(h.name))
    ensures Lookup(t, Last(Components(h.name)), dir).None?
    ensures x == Filled(h, Last(Components(h.name)), dir) && Merge(t, h).1 == t + [x]
    ensures NoSlash(x.name) && x.name == Last(Components(h.name)) && x.parentid == dir
  {
    var walk := Components(h.name);
    ComponentsNoSlash(h.name);
    dir := Resolve(t, Front(walk), -1).value;
    x := Filled(h, Last(walk), dir);
    NamesOfResolved(t, Front(walk));
  }

  /** Every merge keeps the table a forest with unique paths. */
  lemma {:induction false} MergeKeepsForest(t: Table, h: Header)
    requires Forest(t) && Named(h)
    ensures Forest(Merge(t, h).1)
  {
    if Merge(t, h).0 == Added {
      var x, dir := MergeAdds(t, h);
      AppendKeepsForest(t, x);
    }
  }

  lemma {:induction false} LookupGrows(t: Table, u: Table, name: string, parentid: int)
    requires t <= u && Lookup(t, name, parentid).Some?
    ensures Lookup(u, name, parentid) == Lookup(t, name, parentid)
    decreases |u|
  {
    if |t| < |u| {
      LookupGrows(t, u[..|u| - 1], name, parentid);
    } else {
      assert t == u;
    }
  }

  lemma {:induction false} ResolveGrows(t: Table, u: Table, walk: seq<string>, from: int)
    requires t <= u && Resolve(t, walk, from).Some?
    ensures Resolve(u, walk, from) == Resolve(t, walk, from)
  {
    if walk != [] {
      ResolveGrows(t, u, walk[..|walk| - 1], from);
      LookupGrows(t, u, walk[|walk| - 1], Resolve(t, walk[..|walk| - 1], from).value);
    }
  }

  lemma {:induction false} AppendedResolves(t: Table, x: Inode, walk: seq<string>)
    requires walk != [] && Resolve(t, Front(walk), -1) == Some(x.parentid) && x.name == Last(walk)
    ensures Resolve(t + [x], walk, -1).Some?
  {
    ResolveGrows(t, t + [x], Front(walk), -1);
    assert Match(t + [x], |t|, x.name, x.parentid);
  }

  /** After a merge that did not fail, the path of the header is in the table. */
  lemma {:induction false} MergedResolves(t: Table, h: Header)
    requires Named(h) && !Failed(Merge(t, h).0)
    ensures t <= Merge(t, h).1
    ensures Resolve(Merge(t, h).1, Components(h.name), -1).Some?
  {
    var walk := Components(h.name);
    if Merge(t, h).0 == Added {
      AppendedResolves(t, Filled(h, Last(walk), Resolve(t, Front(walk), -1).value), walk);
    }
  }

  /** Once its path is in the table, a header changes nothing. */
  lemma {:induction false} PresentIsKept(t: Table, h: Header)
    requires Named(h)
    ensures Resolve(t, Components(h.name), -1).Some? <==> Merge(t, h).0 == Exists
    ensures Merge(t, h).0 != Added <==> Merge(t, h).1 == t
  {
  }

  // ---------- merging an archive ----------

  ghost predicate AllNamed(hs: seq<Header>) { forall i :: 0 <= i < |hs| ==> Named(hs[i]) }

  /** The table after all headers; the program ends at the first failed merge. */
  ghost function MergeAll(t: Table, hs: seq<Header>): (r: Option<Table>)
    requires AllNamed(hs)
    decreases hs
  {
    if hs == [] then Some(t)
    else
      var m := Merge(t, hs[0]);
      if Failed(m.0) then None else MergeAll(m.1, hs[1..])
  }

  lemma {:induction false} MergeAllGrows(t: Table, hs: seq<Header>)
    requires AllNamed(hs) && MergeAll(t, hs).Some?
    ensures t <= MergeAll(t, hs).value
    ensures Forest(t) ==> Forest(MergeAll(t, hs).value)
    ensures forall i :: 0 <= i < |hs| ==> Resolve(MergeAll(t, hs).value, Components(hs[i].name), -1).Some?
    decreases hs
  {
    if hs != [] {
      var t1 := Merge(t, hs[0]).1;
      MergedResolves(t, hs[0]);
      if Forest(t) { MergeKeepsForest(t, hs[0]); }
      MergeAllGrows(t1, hs[1..]);
      var u := MergeAll(t, hs).value;
      ResolveGrows(t1, u, Components(hs[0].name), -1);
      forall i | 0 <= i < |hs| ensures Resolve(u, Components(hs[i].name), -1).Some? {
        if i > 0 { assert hs[i] == hs[1..][i - 1]; }
      }
    }
  }

  lemma {:induction false} PresentAllKept(t: Table, hs: seq<Header>)
    requires AllNamed(hs) && forall i :: 0 <= i < |hs| ==> Resolve(t, Components(hs[i].name), -1).Some?
    ensures MergeAll(t, hs) == Some(t)
    decreases hs
  {
    if hs != [] {
      PresentIsKept(t, hs[0]);
      PresentAllKept(t, hs[1..]);
    }
  }

  /** Merging the same archive a second time leaves the table unchanged. */
  lemma {:induction false} MergeTwice(t: Table, hs: seq<Header>)
    requires AllNamed(hs) && MergeAll(t, hs).Some?
    ensures MergeAll(MergeAll(t, hs).value, hs) == MergeAll(t, hs)
  {
    MergeAllGrows(t, hs);
    PresentAllKept(MergeAll(t, hs).value, hs);
  }

  // ---------- what the table of an archive contains ----------

  /** Header k is the first one with the components ws. */
  ghost predicate FirstWith(hs: seq<Header>, k: nat, ws: seq<string>)
    requires AllNamed(hs)
  {
    k < |hs| && Components(hs[k].name) == ws && forall j :: 0 <= j < k ==> Components(hs[j].name) != ws
  }

  ghost predicate ComesFrom(t: Table, id: nat, hs: seq<Header>, k: nat)
    requires Forest(t) && AllNamed(hs) && id < |t|
  {
    && FirstWith(hs, k, Names(t, id))
    && t[id] == Filled(hs[k], t[id].name, t[id].parentid)
  }

  ghost predicate HasOrigin(t: Table, id: nat, hs: seq<Header>)
    requires Forest(t) && AllNamed(hs) && id < |t|
  {
    exists k: nat :: ComesFrom(t, id, hs, k)
  }

  ghost predicate AllOrigin(t: Table, hs: seq<Header>)
    requires Forest(t) && AllNamed(hs)
  {
    forall id: nat :: id < |t| ==> HasOrigin(t, id, hs)
  }

  /** The table holds one inode for every path of the archive and nothing else, filled in from
      the first header with that path. */
  ghost predicate Holds(t: Table, hs: seq<Header>)
    requires AllNamed(hs)
  {
    && Forest(t)
    && AllOrigin(t, hs)
    && (forall k :: 0 <= k < |hs| ==> Resolve(t, Components(hs[k].name), -1).Some?)
  }

  lemma {:induction false} NamesGrow(t: Table, u: Table, id: int)
    requires Forest(t) && Forest(u) && t <= u && -1 <= id < |t|
    ensures Names(u, id) == Names(t, id)
    decreases id + 1
  {
    if id != -1 { NamesGrow(t, u, t[id].parentid); }
  }

  lemma {:induction false} OriginKept(t: Table, u: Table, id: nat, hs: seq<Header>, gs: seq<Header>)
    requires Forest(t) && Forest(u) && t <= u && AllNamed(hs) && AllNamed(gs) && hs <= gs
    requires id < |t| && HasOrigin(t, id, hs)
    ensures HasOrigin(u, id, gs)
  {
    var k: nat :| ComesFrom(t, id, hs, k);
    NamesGrow(t, u, id);
    assert ComesFrom(u, id, gs, k);
  }

  lemma {:induction false} AddedOrigin(t: Table, x: Inode, u: Table, hs: seq<Header>, h: Header, gs: seq<Header>)
    requires AllNamed(gs) && gs == hs + [h] && AllNamed(hs) && Named(h) && Holds(t, hs)
    requires u == t + [x] && Forest(u) && -1 <= x.parentid < |t|
    requires Names(t, x.parentid) == Front(Components(h.name)) && x.name == Last(Components(h.name))
    requires Lookup(t, x.name, x.parentid).None? && x == Filled(h, x.name, x.parentid)
    ensures HasOrigin(u, |t|, gs)
  {
    var ws := Components(h.name);
    NamesGrow(t, u, x.parentid);
    assert Names(u, |t|) == ws;
    ResolveNames(t, x.parentid);
    assert Resolve(t, ws, -1).None?;
    assert FirstWith(gs, |hs|, ws);
    assert ComesFrom(u, |t|, gs, |hs|);
  }

  lemma {:induction false} AllOrigins(t: Table, u: Table, hs: seq<Header>, gs: seq<Header>)
    requires AllNamed(hs) && AllNamed(gs) && hs <= gs && Forest(t) && Forest(u) && t <= u && |u| <= |t| + 1
    requires AllOrigin(t, hs)
    requires |u| == |t| + 1 ==> HasOrigin(u, |t|, gs)
    ensures AllOrigin(u, gs)
  {
    forall id: nat | id < |u| ensures HasOrigin(u, id, gs) {
      if id < |t| { OriginKept(t, u, id, hs, gs); }
    }
  }

  lemma {:induction false} MergeOrigins(t: Table, hs: seq<Header>, h: Header, u: Table, gs: seq<Header>)
    requires AllNamed(gs) && AllNamed(hs) && Named(h) && Holds(t, hs)
    requires !Failed(Merge(t, h).0) && u == Merge(t, h).1 && gs == hs + [h]
    ensures Forest(u)
    ensures AllOrigin(u, gs)
  {
    MergeKeepsForest(t, h);
    if Merge(t, h).0 == Added {
      var x, dir := MergeAdds(t, h);
      AddedOrigin(t, x, u, hs, h, gs);
    }
    AllOrigins(t, u, hs, gs);
  }

  lemma {:induction false} MergeHolds(t: Table, hs: seq<Header>, h: Header, gs: seq<Header>)
    requires AllNamed(hs) && Named(h) && Holds(t, hs) && !Failed(Merge(t, h).0) && gs == hs + [h]
    ensures AllNamed(gs) && Holds(Merge(t, h).1, gs)
  {
    var u := Merge(t, h).1;
    MergeOrigins(t, hs, h, u, gs);
    MergedResolves(t, h);
    forall k | 0 <= k < |gs| ensures Resolve(u, Components(gs[k].name), -1).Some? {
      if k < |hs| { ResolveGrows(t, u, Components(hs[k].name), -1); }
    }
  }

  lemma {:induction false} MergeAllFrom(t: Table, hs: seq<Header>, k: nat)
    requires k < |hs| && AllNamed(hs)
    ensures MergeAll(t, hs[k..]) ==
            if Failed(Merge(t, hs[k]).0) then None else MergeAll(Merge(t, hs[k]).1, hs[k + 1..])
  {
    assert hs[k..][1..] == hs[k + 1..] && hs[k..][0] == hs[k];
  }

  lemma {:induction false} NextHeaderHolds(t: Table, hs: seq<Header>, i: nat)
    requires i < |hs| && AllNamed(hs) && Holds(t, hs[..i]) && !Failed(Merge(t, hs[i]).0)
    ensures Holds(Merge(t, hs[i]).1, hs[..i + 1])
  {
    OneMore(hs, i);
    MergeHolds(t, hs[..i], hs[i], hs[..i + 1]);
  }

  lemma {:induction false} OneMore(hs: seq<Header>, i: nat)
    requires i < |hs|
    ensures hs[..i + 1] == hs[..i] + [hs[i]]
  {
  }

  lemma {:induction false} HoldsFrom(t: Table, hs: seq<Header>, k: nat)
    requires AllNamed(hs) && k <= |hs| && Holds(t, hs[..k]) && MergeAll(t, hs[k..]).Some?
    ensures Holds(MergeAll(t, hs[k..]).value, hs)
    decreases |hs| - k
  {
    if k < |hs| {
      MergeAllFrom(t, hs, k);
      NextHeaderHolds(t, hs, k);
      HoldsFrom(Merge(t, hs[k]).1, hs, k + 1);
    } else {
      assert hs[..k] == hs;
    }
  }

  /** From the empty table: the inodes are exactly the distinct paths of the archive. */
  lemma {:induction false} ArchiveContents(hs: seq<Header>)
    requires AllNamed(hs) && MergeAll([], hs).Some?
    ensures Holds(MergeAll([], hs).value, hs)
  {
    assert hs[..0] == [] && hs[0..] == hs;
    HoldsFrom([], hs, 0);
  }

  // ---------- which archives can be merged ----------

  /** One of the first k headers has this path. */
  ghost predicate Earlier(hs: seq<Header>, k: nat, ws: seq<string>)
    requires AllNamed(hs) && k <= |hs|
  {
    exists j: nat :: j < k && Components(hs[j].name) == ws
  }

  /** A header with a new path needs a known type, a link its target, and the path above it an earlier header. */
  ghost predicate Mergeable(hs: seq<Header>, k: nat)
    requires AllNamed(hs) && k < |hs|
  {
    var h := hs[k];
    var walk := Components(h.name);
    Earlier(hs, k, walk)
    || ((h.typeflag == '5' || h.typeflag == '0' || ((h.typeflag == '1' || h.typeflag == '2') && h.linkname != ""))
        && (Front(walk) == [] || Earlier(hs, k, Front(walk))))
  }

  lemma {:induction false} KnownPath(t: Table, hs: seq<Header>, k: nat, ws: seq<string>)
    requires AllNamed(hs) && k <= |hs| && Holds(t, hs[..k])
    ensures Resolve(t, ws, -1).Some? <==> ws == [] || Earlier(hs, k, ws)
  {
    if ws != [] && Resolve(t, ws, -1).Some? {
      NamesOfResolved(t, ws);
      var id := Resolve(t, ws, -1).value;
      assert HasOrigin(t, id, hs[..k]);
      var j: nat :| ComesFrom(t, id, hs[..k], j);
      assert Components(hs[j].name) == ws;
    }
    if Earlier(hs, k, ws) {
      var j: nat :| j < k && Components(hs[j].name) == ws;
      assert hs[..k][j] == hs[j];
    }
  }

  lemma {:induction false} MergeFailsWhen(t: Table, hs: seq<Header>, k: nat)
    requires AllNamed(hs) && k < |hs| && Holds(t, hs[..k])
    ensures Failed(Merge(t, hs[k]).0) <==> !Mergeable(hs, k)
  {
    var walk := Components(hs[k].name);
    assert Named(hs[k]);
    KnownPath(t, hs, k, walk);
    KnownPath(t, hs, k, Front(walk));
  }

  lemma {:induction false} MergesFrom(t: Table, hs: seq<Header>, k: nat)
    requires AllNamed(hs) && k <= |hs| && Holds(t, hs[..k])
    ensures MergeAll(t, hs[k..]).Some? <==> forall i: nat :: k <= i < |hs| ==> Mergeable(hs, i)
    decreases |hs| - k
  {
    if k < |hs| {
      MergeAllFrom(t, hs, k);
      MergeFailsWhen(t, hs, k);
      if Mergeable(hs, k) {
        NextHeaderHolds(t, hs, k);
        MergesFrom(Merge(t, hs[k]).1, hs, k + 1);
      }
    }
  }

  /** The program merges a whole archive, instead of giving up, exactly when every header can be merged. */
  lemma {:induction false} ArchiveMerges(hs: seq<Header>)
    requires AllNamed(hs)
    ensures MergeAll([], hs).Some? <==> forall k: nat :: k < |hs| ==> Mergeable(hs, k)
  {
    assert hs[..0] == [] && hs[0..] == hs;
    MergesFrom([], hs, 0);
  }

  // ---------- what an inode keeps of its header ----------

  /** Field by field: all permissions, the owner if it is 0 or 1000 and else none, the contents of a file, the target
      of a link, and a slash before that of a hard link. */
  ghost predicate KeepsHeader(x: Inode, h: Header)
    requires Named(h)
  {
    && x.name == Last(Components(h.name))
    && x.mode % 4096 == h.mode % 4096 && x.mode / 65536 == h.mode / 65536
    && x.size == h.size && x.mtime == h.mtime
    && (if h.uid == 0 || h.uid == 1000 then x.uid == h.uid && x.gid == h.gid else x.uid == 0 && x.gid == 0)
    && x.data == (if h.typeflag == '0' && h.size != 0 then h.body else "")
    && (|h.linkname| <= 100 ==> x.link == if h.typeflag == '1' then "/" + h.linkname else h.linkname)
    && x.src == "" && !x.compressed && !x.load
  }

  lemma {:induction false} ModeParts(mode: int, high: int, bits: int, low: int)
    requires mode == 65536 * high + 4096 * bits + low && 0 <= bits < 16 && 0 <= low < 4096
    ensures mode / 65536 == high && mode % 4096 == low && FileType(mode) == bits
  {
    assert mode / 4096 == 16 * high + bits;
  }

  lemma {:induction false} PartsKept(mode: int, bits: TypeBits, high: int, was: TypeBits, low: int)
    requires mode == 65536 * high + 4096 * was + low && 0 <= low < 4096
    ensures WithType(mode, bits) % 4096 == mode % 4096 && WithType(mode, bits) / 65536 == mode / 65536
  {
    ModeParts(mode, high, was, low);
    ModeParts(mode + (Or(was, bits) - was) * 4096, high, Or(was, bits), low);
  }

  lemma {:induction false} PermissionsKept(mode: int, bits: TypeBits)
    ensures WithType(mode, bits) % 4096 == mode % 4096 && WithType(mode, bits) / 65536 == mode / 65536
  {
    var q := mode / 4096;
    PartsKept(mode, bits, q / 16, q % 16, mode % 4096);
  }

  lemma {:induction false} FilledKeeps(h: Header, parentid: int)
    requires Named(h)
    ensures KeepsHeader(Filled(h, Last(Components(h.name)), parentid), h)
  {
    PermissionsKept(h.mode, FlagBits(h.typeflag));
  }

  /** Every inode of the table of an archive keeps what the first header with its path says. */
  lemma {:induction false} InodeKeepsHeader(t: Table, hs: seq<Header>, id: nat) returns (k: nat)
    requires AllNamed(hs) && Holds(t, hs) && id < |t|
    ensures FirstWith(hs, k, Names(t, id)) && KeepsHeader(t[id], hs[k])
    ensures FileType(t[id].mode) == Or(FileType(hs[k].mode), FlagBits(hs[k].typeflag))
  {
    assert HasOrigin(t, id, hs);
    k :| ComesFrom(t, id, hs, k);
    assert Last(Names(t, id)) == t[id].name;
    FilledKeeps(hs[k], t[id].parentid);
    FileTypeOfWithType(hs[k].mode, FlagBits(hs[k].typeflag));
  }

  function Bits(b3: bool, b2: bool, b1: bool, b0: bool): TypeBits
  {
    (if b3 then 8 else 0) + (if b2 then 4 else 0) + (if b1 then 2 else 0) + if b0 then 1 else 0
  }

  /** Or is taken bit by bit. */
  lemma {:induction false} OrIsBitwise(a3: bool, a2: bool, a1: bool, a0: bool, b3: bool, b2: bool, b1: bool, b0: bool)
    ensures Or(Bits(a3, a2, a1, a0), Bits(b3, b2, b1, b0)) == Bits(a3 || b3, a2 || b2, a1 || b1, a0 || b0)
  {
  }

  // ---------- kinds ----------

  datatype Kind = Dir | File | Link | Other

  function KindOf(mode: int): Kind
  {
    if FileType(mode) == S_IFDIR then Dir
    else if FileType(mode) == S_IFREG then File
    else if FileType(mode) == S_IFLNK then Link
    else Other
  }

  function KindOfFlag(typeflag: char): Kind
  {
    match typeflag
    case '5' => Dir
    case '0' => File
    case '1' => Link
    case '2' => Link
    case _ => Other
  }

  lemma {:induction false} FileTypeShifted(mode: int, d: int)
    requires 0 <= FileType(mode) + d < 16
    ensures FileType(mode + d * 4096) == FileType(mode) + d
  {
    var q := mode / 4096;
    assert (mode + d * 4096) / 4096 == q + d;
  }

  lemma {:induction false} FileTypeOfWithType(mode: int, bits: TypeBits)
    ensures FileType(WithType(mode, bits)) == Or(FileType(mode), bits)
  {
    FileTypeShifted(mode, Or(FileType(mode), bits) - FileType(mode));
  }

  /** The file type of a merged inode is that of the header's type flag exactly when the header's
      mode field brings no file type bits besides those of that type. */
  lemma {:induction false} KindOfFilled(h: Header, name: string, parentid: int)
    requires KindOfFlag(h.typeflag) != Other
    ensures KindOf(Filled(h, name, parentid).mode) == KindOfFlag(h.typeflag)
            <==> FileType(h.mode) in (match h.typeflag
                                      case '5' => {0, 4}
                                      case '0' => {0, 8}
                                      case _ => {0, 2, 8, 10})
  {
    FileTypeOfWithType(h.mode, FlagBits(h.typeflag));
  }

  /** Parents are directories. MergeFile itself does not check this. */
  ghost predicate DirParents(t: Table)
  {
    forall i :: 0 <= i < |t| ==> ParentIsDir(t, t[i].parentid)
  }

  predicate ParentIsDir(t: Table, id: int) { id == -1 || (0 <= id < |t| && KindOf(t[id].mode) == Dir) }

  lemma {:induction false} AppendKeepsDirParents(t: Table, x: Inode)
    requires Forest(t) && DirParents(t) && -1 <= x.parentid < |t|
    ensures DirParents(t + [x]) <==> ParentIsDir(t, x.parentid)
  {
    var u := t + [x];
    assert u[|t|] == x;
    assert ParentIsDir(u, x.parentid) <==> ParentIsDir(t, x.parentid);
    forall i | 0 <= i < |t| ensures ParentIsDir(u, u[i].parentid) { assert ParentIsDir(t, t[i].parentid); }
  }

  lemma {:induction false} MergeKeepsDirParents(t: Table, h: Header)
    requires Forest(t) && Named(h) && DirParents(t) && Merge(t, h).0 == Added
    ensures DirParents(Merge(t, h).1) <==> ParentIsDir(t, Resolve(t, Front(Components(h.name)), -1).value)
  {
    var x, dir := MergeAdds(t, h);
    AppendKeepsDirParents(t, x);
  }

  /** A file, and a second header with a path below it, give an inode whose parent is no directory. */
  lemma {:induction false} FileAsParent(file: Header, below: Header)
    requires file.name == "a" && file.typeflag == '0' && FileType(file.mode) == 0
    requires below.name == "a/b" && below.typeflag == '0'
    ensures AllNamed([file, below]) && MergeAll([], [file, below]).Some?
    ensures !DirParents(MergeAll([], [file, below]).value)
  {
    FewPieces();
    var x := Filled(file, "a", -1);
    var y := Filled(below, "b", 0);
    MergesInRow([file, below], [x, y]);
    KindOfFilled(file, "a", -1);
    assert [x, y][1].parentid == 0;
  }

  /** Two directory headers, the second with one slash more, give an inode with an empty name, to which its
      full path does not lead. */
  lemma {:induction false} EmptyName(dir: Header, doubled: Header)
    requires dir.name == "a/" && dir.typeflag == '5' && doubled.name == "a//" && doubled.typeflag == '5'
    ensures AllNamed([dir, doubled]) && MergeAll([], [dir, doubled]).Some?
    ensures var t := MergeAll([], [dir, doubled]).value;
            && Forest(t) && |t| == 2 && t[1].name == ""
            && Resolve(t, Components(Absolute(Names(t, 1))), -1) != Some(1)
  {
    FewPieces();
    var t := [Filled(dir, "a", -1), Filled(doubled, "", 0)];
    MergesInRow([dir, doubled], t);
    MergedForest([dir, doubled]);
    FullPathResolves(t, 1);
  }

  lemma {:induction false} MergedForest(hs: seq<Header>)
    requires AllNamed(hs) && MergeAll([], hs).Some?
    ensures Forest(MergeAll([], hs).value)
  {
    MergeAllGrows([], hs);
  }

  lemma {:induction false} FewPieces()
    ensures Components("a") == Components("a/") == ["a"]
    ensures Components("a/b") == ["a", "b"] && Components("a//") == ["a", ""]
  {
    assert "" + ['a'] == "a" && "" + ['b'] == "b";
    PiecesAre("", [], "", 'a', "a", ["a"]);
    PiecesAre("a", [], "a", '/', "a/", ["a", ""]);
    PiecesAre("a/", ["a"], "", 'b', "a/b", ["a", "b"]);
    PiecesAre("a/", ["a"], "", '/', "a//", ["a", "", ""]);
    ComponentsAre("a", ["a"], []);
    ComponentsAre("a/", ["a", ""], ["a"]);
    ComponentsAre("a/b", ["a", "b"], []);
    ComponentsAre("a//", ["a", "", ""], ["a", ""]);
  }

  lemma {:induction false} PiecesAre(s: string, front: seq<string>, last: string, c: char, longer: string, ws: seq<string>)
    requires Pieces(s) == front + [last] && longer == s + [c]
    requires ws == if c == '/' then front + [last] + [""] else front + [last + [c]]
    ensures Pieces(longer) == ws
  {
    PiecesSnoc(s, c);
    ExtendLast(front, last, c);
  }

  lemma {:induction false} ComponentsAre(name: string, ws: seq<string>, front: seq<string>)
    requires name != "" && name[0] != '/' && name[0] != '.' && Pieces(name) == ws
    requires name[|name| - 1] == '/' ==> ws != [] && front == ws[..|ws| - 1]
    ensures Components(name) == if name[|name| - 1] == '/' then front else ws
  {
    assert From(name, 0) == name;
  }

  /** A first header with one component, and a second one with one more. */
  lemma {:induction false} MergesInRow(hs: seq<Header>, t: Table)
    requires |hs| == |t| == 2 && AllNamed(hs) && Verdict(hs[0]) == Verdict(hs[1]) == Added
    requires Components(hs[0].name) == [t[0].name] && Components(hs[1].name) == [t[0].name, t[1].name]
    requires t[0] == Filled(hs[0], t[0].name, -1) && t[1] == Filled(hs[1], t[1].name, 0)
    ensures MergeAll([], hs) == Some(t)
  {
    assert Front(Components(hs[0].name)) == [] && Resolve([], [], -1) == Some(-1);
    assert [] + [t[0]] == [t[0]];
    assert Merge([], hs[0]) == (Added, [t[0]]);
    LookupOne(t[0]);
    var walk := Components(hs[1].name);
    assert Front(walk) == [t[0].name] && Front(walk)[..0] == [];
    assert Resolve([t[0]], [], -1) == Some(-1) && Resolve([t[0]], Front(walk), -1) == Some(0);
    assert [t[0]] + [t[1]] == t;
    assert Merge([t[0]], hs[1]) == (Added, t);
    assert hs[1..][0] == hs[1] && hs[1..][1..] == [];
    assert MergeAll(t, []) == Some(t);
  }

  lemma {:induction false} LookupOne(x: Inode)
    requires x.parentid == -1
    ensures Lookup([x], x.name, -1) == Some(0)
    ensures forall name :: Lookup([x], name, 0) == None
  {
    assert Match([x], 0, x.name, -1);
    assert forall i, name :: !Match([x], i, name, 0);
  }

  // ---------- the program ----------

  class FileSystem {
    const inodes: array<Inode>
    var ninodes: nat

    ghost predicate Valid()
      reads this
    {
      ninodes <= inodes.Length
    }

    ghost function Contents(): (t: Table)
      reads this, inodes
      requires Valid()
    {
      inodes[..ninodes]
    }

    constructor (capacity: nat)
      ensures Valid() && Contents() == [] && fresh(inodes) && inodes.Length == capacity
    {
      ninodes := 0;
      inodes := new Inode[capacity](_ => Inode("", "", "", 0, 0, 0, 0, 0, "", false, false, 0));
    }

    method IsEmpty(parentid: int) returns (empty: bool)
      requires Valid()
      ensures empty <==> forall k :: 0 <= k < ninodes ==> inodes[k].parentid != parentid
    {
      var i := 0;
      while i < ninodes
        invariant i <= ninodes
        invariant forall k :: 0 <= k < i ==> inodes[k].parentid != parentid
      {
        if inodes[i].parentid == parentid {
          return false;
        }
        i := i + 1;
      }
      return true;
    }

    method SearchInode(name: string, parentid: int) returns (id: int)
      requires Valid()
      ensures id == (var r := Lookup(Contents(), name, parentid); if r.Some? then r.value else -1)
      ensures -1 <= id < ninodes
    {
      var i := 0;
      while i < ninodes
        invariant i <= ninodes
        invariant Lookup(inodes[..i], name, parentid).None?
      {
        assert inodes[..i + 1][..i] == inodes[..i];
        if inodes[i].parentid == parentid && inodes[i].name == name {
          assert Match(inodes[..i + 1], i, name, parentid);
          LookupGrows(inodes[..i + 1], Contents(), name, parentid);
          return i;
        }
        i := i + 1;
      }
      return -1;
    }

    /** The path is put together from the inode up to the root. */
    method GetFullPath(root: string, start: int) returns (path: string)
      requires Valid() && Forest(Contents()) && -1 <= start < ninodes
      ensures path == root + Absolute(Names(Contents(), start))
    {
      path := "";
      var id := start;
      while id != -1
        invariant -1 <= id < ninodes
        invariant Absolute(Names(Contents(), start)) == Absolute(Names(Contents(), id)) + path
        decreases id + 1
      {
        ghost var above := Names(Contents(), inodes[id].parentid);
        assert (above + [inodes[id].name])[..|above|] == above;
        assert Absolute(Names(Contents(), id)) == Absolute(above) + "/" + inodes[id].name;
        path := "/" + inodes[id].name + path;
        id := inodes[id].parentid;
      }
      path := root + path;
    }

    /** The walk of MergeFile down to the directory of the new file. */
    method FindDirectory(walk: seq<string>) returns (ok: bool, parentid: int)
      requires Valid()
      ensures ok <==> Resolve(Contents(), walk, -1).Some?
      ensures ok ==> Resolve(Contents(), walk, -1) == Some(parentid)
    {
      parentid := -1;
      var i := 0;
      while i < |walk|
        invariant i <= |walk|
        invariant Resolve(Contents(), walk[..i], -1) == Some(parentid)
      {
        assert walk[..i + 1][..i] == walk[..i];
        var next := SearchInode(walk[i], parentid);
        if next == -1 {
          UnresolvedPrefix(Contents(), walk, i + 1);
          return false, -1;
        }
        parentid := next;
        i := i + 1;
      }
      assert walk[..i] == walk;
      return true, parentid;
    }

    method MergeFile(h: Header) returns (m: Merged)
      requires Valid() && Named(h) && ninodes < inodes.Length
      modifies this`ninodes, inodes
      ensures Valid() && m == Merge(old(Contents()), h).0 && Contents() == Merge(old(Contents()), h).1
      ensures ninodes == old(ninodes) + if m == Added then 1 else 0
    {
      ghost var t := Contents();
      var walk := Split(h.name);
      var n := |walk|;
      var ok, parentid := FindDirectory(walk[..n - 1]);
      if !ok {
        return NoParent;
      }
      var found := SearchInode(walk[n - 1], parentid);
      if found != -1 && h.typeflag != '5' {
        return Exists;
      }
      if found != -1 && h.typeflag == '5' {
        return Exists;
      }
      var x: Inode;
      m, x := Fill(h, walk[n - 1], parentid);
      if m == Added {
        inodes[ninodes] := x;
        ninodes := ninodes + 1;
        assert Contents() == t + [x];
      }
    }

    /** The part of MergeFile that fills in the next inode. */
    static method Fill(h: Header, name: string, parentid: int) returns (m: Merged, x: Inode)
      ensures m == Verdict(h)
      ensures m == Added ==> x == Filled(h, name, parentid)
    {
      var uid, gid, mode := h.uid, h.gid, h.mode;
      var link, data := Prefix(h.linkname, 100), "";
      x := Inode(name, "", link, mode, h.size, uid, gid, parentid, data, false, false, h.mtime);
      if uid != 0 && uid != 1000 {
        uid, gid := 0, 0;
      }
      if h.typeflag == '5' {
        mode := WithType(mode, S_IFDIR);
      } else if h.typeflag == '0' {
        mode := WithType(mode, S_IFREG);
        if h.size != 0 {
          data := h.body;
        }
      } else if h.typeflag == '1' || h.typeflag == '2' {
        mode := WithType(mode, S_IFLNK);
        if h.linkname == "" {
          return NoLink, x;
        }
        if h.typeflag == '1' {
          link := "/" + Prefix(h.linkname, 100);
        }
      } else {
        return UnknownType, x;
      }
      x := Inode(name, "", link, mode, h.size, uid, gid, parentid, data, false, false, h.mtime);
      return Added, x;
    }
  }

  lemma {:induction false} UnresolvedPrefix(t: Table, walk: seq<string>, i: nat)
    requires i <= |walk| && Resolve(t, walk[..i], -1).None?
    ensures Resolve(t, walk, -1).None?
  {
    if i < |walk| {
      assert walk[..|walk| - 1][..i] == walk[..i];
      UnresolvedPrefix(t, walk[..|walk| - 1], i);
    } else {
      assert walk[..i] == walk;
    }
  }
}
