/**
The recursive printers of the converter, writing token by token while they scan the table.
*/
module FsWalk {
  import opened FsPaths
  import opened FsInodes
  import opened Options
  import opened FsTrees
  import opened FsPrint

  /** An output file. */
  class Output<T> {
    var tokens: seq<T>

    constructor ()
      ensures tokens == []
    {
      tokens := [];
    }

    method Write(t: T)
      modifies this
      ensures tokens == old(tokens) + [t]
    {
      tokens := tokens + [t];
    }
  }

  /** The children of a parent from an index on. */
  ghost function Children(t: Table, parent: int, from: nat): (n: nat)
    requires from <= |t|
    decreases |t| - from
  {
    if from == |t| then 0 else (if t[from].parentid == parent then 1 else 0) + Children(t, parent, from + 1)
  }

  /** No unknown file type among the inodes the JSON printer reaches from here. */
  ghost predicate KnownBelow(t: Table, parent: int, from: nat)
    requires Forest(t) && -1 <= parent < |t| && from <= |t|
    decreases |t| - parent, |t| - from
  {
    from < |t| ==>
      && (t[from].parentid == parent ==> Known(t[from]) && (KindOf(t[from].mode) == Dir ==> KnownBelow(t, from, 0)))
      && KnownBelow(t, parent, from + 1)
  }

  lemma {:induction false} LastSibling(t: Table, parent: int, from: nat)
    requires Forest(t) && -1 <= parent < |t| && from <= |t| && KnownBelow(t, parent, from)
    ensures Below(t, parent, from) == Nil <==> Children(t, parent, from) == 0
    decreases |t| - from
  {
    if from < |t| { LastSibling(t, parent, from + 1); }
  }

  lemma {:induction false} NoChildren(t: Table, parent: int, from: nat)
    requires Forest(t) && -1 <= parent < |t| && from <= |t|
    requires forall k :: from <= k < |t| ==> t[k].parentid != parent
    ensures Below(t, parent, from) == Nil && KnownBelow(t, parent, from)
    decreases |t| - from
  {
    if from < |t| { NoChildren(t, parent, from + 1); }
  }

  method PrintOwner(x: Inode) returns (attrs: seq<Attr>)
    ensures attrs == When(x.uid != 0, Uid(x.uid)) + When(x.gid != 0, Gid(x.gid))
  {
    attrs := [];
    if x.uid != 0 {
      attrs := attrs + [Uid(x.uid)];
    }
    if x.gid != 0 {
      attrs := attrs + [Gid(x.gid)];
    }
  }

  method PrintFlags(x: Inode) returns (attrs: seq<Attr>)
    ensures attrs == When(x.compressed, Compressed) + When(x.load, Load) + When(x.src != "", Src(x.src))
  {
    attrs := [];
    if x.compressed {
      attrs := attrs + [Compressed];
    }
    if x.load {
      attrs := attrs + [Load];
    }
    if x.src != "" {
      attrs := attrs + [Src(x.src)];
    }
  }

  /** The attributes printed for an inode. */
  method PrintAttrs(x: Inode) returns (attrs: seq<Attr>)
    requires Known(x)
    ensures attrs == Attrs(ViewOf(x))
  {
    attrs := [Name(x.name), Mode(x.mode)];
    if KindOf(x.mode) == Dir {
      var owner := PrintOwner(x);
      attrs := attrs + owner;
      assert Attrs(ViewOf(x)) == [Name(x.name), Mode(x.mode)] + [] + owner + [];
    } else if KindOf(x.mode) == File {
      var owner := PrintOwner(x);
      var flags := PrintFlags(x);
      attrs := attrs + [Size(x.size)] + owner + flags;
    } else {
      attrs := attrs + [Path(x.link)];
      assert Attrs(ViewOf(x)) == [Name(x.name), Mode(x.mode)] + [Path(x.link)] + [] + [];
    }
  }

  method CountChildren(fs: FileSystem, parentid: int) returns (n: nat)
    requires fs.Valid()
    ensures n == Children(fs.Contents(), parentid, 0)
  {
    n := 0;
    var i := 0;
    while i < fs.ninodes
      invariant i <= fs.ninodes
      invariant n + Children(fs.Contents(), parentid, i) == Children(fs.Contents(), parentid, 0)
    {
      if fs.inodes[i].parentid == parentid {
        n := n + 1;
      }
      i := i + 1;
    }
  }

  ghost function NodeOf(t: Table, i: nat): Tree
    requires Forest(t) && i < |t|
  {
    Node(ViewOf(t[i]), if KindOf(t[i].mode) == Dir then Below(t, i, 0) else Nil)
  }

  /** WalkXML prints exactly the trees below a parent; inodes of unknown type print nothing. */
  method WalkXML(fs: FileSystem, fp: Output<Xml>, parentid: int)
    requires fs.Valid() && Forest(fs.Contents()) && -1 <= parentid < fs.ninodes
    modifies fp
    ensures fp.tokens == old(fp.tokens) + XmlTrees(Below(fs.Contents(), parentid, 0))
    decreases fs.ninodes - parentid, 0
  {
    ghost var t := fs.Contents();
    var i := 0;
    while i < fs.ninodes
      invariant i <= fs.ninodes
      invariant fp.tokens + XmlTrees(Below(t, parentid, i)) == old(fp.tokens) + XmlTrees(Below(t, parentid, 0))
    {
      if fs.inodes[i].parentid == parentid {
        ghost var was, rest := fp.tokens, XmlTrees(Below(t, parentid, i + 1));
        PrintXmlNode(fs, fp, i);
        assert was + (XmlNode(NodeOf(t, i)) + rest) == (was + XmlNode(NodeOf(t, i))) + rest;
      }
      i := i + 1;
    }
  }

  /** The body of the loop of WalkXML, for one child. */
  method PrintXmlNode(fs: FileSystem, fp: Output<Xml>, i: nat)
    requires fs.Valid() && Forest(fs.Contents()) && i < fs.ninodes
    modifies fp
    ensures fp.tokens == old(fp.tokens) + XmlNode(NodeOf(fs.Contents(), i))
    decreases fs.ninodes - i, 1
  {
    var x := fs.inodes[i];
    if KindOf(x.mode) == Dir {
      var attrs := PrintAttrs(x);
      fp.Write(DirTag(attrs));
      WalkXML(fs, fp, i);
      fp.Write(DirEnd);
    } else if KindOf(x.mode) == File {
      var attrs := PrintAttrs(x);
      fp.Write(FileTag(attrs));
    } else if KindOf(x.mode) == Link {
      var attrs := PrintAttrs(x);
      fp.Write(LinkTag(attrs));
    }
  }

  /** WalkJSON prints exactly the trees below a parent, and gives up exactly when it meets an
      inode of unknown type. */
  method WalkJSON(fs: FileSystem, fp: Output<Json>, parentid: int) returns (ok: bool)
    requires fs.Valid() && Forest(fs.Contents()) && -1 <= parentid < fs.ninodes
    modifies fp
    ensures ok <==> KnownBelow(fs.Contents(), parentid, 0)
    ensures ok ==> fp.tokens == old(fp.tokens) + JsonTrees(Below(fs.Contents(), parentid, 0))
    decreases fs.ninodes - parentid, 1
  {
    ghost var t := fs.Contents();
    var n := CountChildren(fs, parentid);
    var i := 0;
    while i < fs.ninodes
      invariant i <= fs.ninodes && n == Children(t, parentid, i)
      invariant KnownBelow(t, parentid, i) <==> KnownBelow(t, parentid, 0)
      invariant KnownBelow(t, parentid, i) ==>
                  fp.tokens + JsonTrees(Below(t, parentid, i)) == old(fp.tokens) + JsonTrees(Below(t, parentid, 0))
    {
      if fs.inodes[i].parentid == parentid {
        n := n - 1;
        ok := PrintChild(fs, fp, parentid, i, n == 0);
        if !ok {
          return false;
        }
      }
      i := i + 1;
    }
    return true;
  }

  /** What the first tree of a list prints. */
  function Siblings(n: Tree, last: bool): seq<Json> { JsonNode(n) + if last then [] else [Comma] }

  lemma {:induction false} JsonSiblings(n: Tree, rest: Trees)
    ensures JsonTrees(Cons(n, rest)) == Siblings(n, rest == Nil) + JsonTrees(rest)
  {
  }

  /** The body of the loop of WalkJSON, for one child. */
  method PrintChild(fs: FileSystem, fp: Output<Json>, parentid: int, i: nat, last: bool) returns (ok: bool)
    requires fs.Valid() && Forest(fs.Contents()) && -1 <= parentid < i < fs.ninodes
    requires fs.inodes[i].parentid == parentid && (last <==> Children(fs.Contents(), parentid, i + 1) == 0)
    modifies fp
    ensures KnownBelow(fs.Contents(), parentid, i) <==> ok && KnownBelow(fs.Contents(), parentid, i + 1)
    ensures KnownBelow(fs.Contents(), parentid, i) ==>
              fp.tokens + JsonTrees(Below(fs.Contents(), parentid, i + 1)) ==
              old(fp.tokens) + JsonTrees(Below(fs.Contents(), parentid, i))
    decreases fs.ninodes - parentid, 0
  {
    ghost var t, was := fs.Contents(), fp.tokens;
    ghost var rest := Below(t, parentid, i + 1);
    var x := fs.inodes[i];
    if !Known(x) {
      return false;
    }
    ok := PrintNode(fs, fp, i);
    if !ok {
      return false;
    }
    if !last {
      fp.Write(Comma);
    }
    if KnownBelow(t, parentid, i + 1) {
      LastSibling(t, parentid, i + 1);
      assert fp.tokens == was + Siblings(NodeOf(t, i), last);
      JsonSiblings(NodeOf(t, i), rest);
      assert was + (Siblings(NodeOf(t, i), last) + JsonTrees(rest)) == fp.tokens + JsonTrees(rest);
    }
  }

  method PrintNode(fs: FileSystem, fp: Output<Json>, i: nat) returns (ok: bool)
    requires fs.Valid() && Forest(fs.Contents()) && i < fs.ninodes && Known(fs.inodes[i])
    modifies fp
    ensures ok <==> (KindOf(fs.inodes[i].mode) == Dir ==> KnownBelow(fs.Contents(), i, 0))
    ensures ok ==> fp.tokens == old(fp.tokens) + JsonNode(NodeOf(fs.Contents(), i))
    decreases fs.ninodes - i, 3
  {
    ghost var was := fp.tokens;
    var x := fs.inodes[i];
    var attrs := PrintAttrs(x);
    fp.Write(Object(attrs));
    if KindOf(x.mode) == Dir {
      ghost var inner := JsonTrees(Below(fs.Contents(), i, 0));
      fp.Write(ChildOpen);
      ok := PrintChildren(fs, fp, i);
      if !ok {
        return false;
      }
      fp.Write(ChildClose);
      assert fp.tokens == was + ([Object(attrs)] + ([ChildOpen] + inner + [ChildClose]));
    } else {
      assert [Object(attrs)] + [] == [Object(attrs)];
    }
    fp.Write(EndObject);
    return true;
  }

  /** What stands between the brackets of a directory: nothing when it is empty. */
  method PrintChildren(fs: FileSystem, fp: Output<Json>, i: nat) returns (ok: bool)
    requires fs.Valid() && Forest(fs.Contents()) && i < fs.ninodes
    modifies fp
    ensures ok <==> KnownBelow(fs.Contents(), i, 0)
    ensures ok ==> fp.tokens == old(fp.tokens) + JsonTrees(Below(fs.Contents(), i, 0))
    decreases fs.ninodes - i, 2
  {
    var empty := fs.IsEmpty(i);
    if empty {
      NoChildren(fs.Contents(), i, 0);
      return true;
    }
    ok := WalkJSON(fs, fp, i);
  }

  lemma {:induction false} AllKnownBelow(t: Table, parent: int, from: nat)
    requires Forest(t) && -1 <= parent < |t| && from <= |t|
    requires AllKnown(t)
    ensures KnownBelow(t, parent, from)
    decreases |t| - parent, |t| - from
  {
    if from < |t| {
      AllKnownBelow(t, parent, from + 1);
      if t[from].parentid == parent && KindOf(t[from].mode) == Dir { AllKnownBelow(t, from, 0); }
    }
  }

  /** The file type bits an inode gets from its header: those of the mode field, and those of the type flag. */
  function TypeOf(h: Header): TypeBits { Or(FileType(h.mode), FlagBits(h.typeflag)) }

  /** Every path of the archive first appears with bits of a known type, and the path above it with those
      of a directory. */
  ghost predicate WellFormed(hs: seq<Header>)
    requires AllNamed(hs)
  {
    && (forall k: nat :: k < |hs| && FirstWith(hs, k, Components(hs[k].name)) ==> TypeOf(hs[k]) in {S_IFDIR, S_IFREG, S_IFLNK})
    && (forall j: nat, k: nat :: k < |hs| && FirstWith(hs, j, Front(Components(hs[k].name))) ==> TypeOf(hs[j]) == S_IFDIR)
  }

  lemma {:induction false} OriginHeader(t: Table, hs: seq<Header>, id: nat) returns (k: nat)
    requires AllNamed(hs) && Holds(t, hs) && id < |t|
    ensures FirstWith(hs, k, Names(t, id)) && FileType(t[id].mode) == TypeOf(hs[k])
  {
    assert HasOrigin(t, id, hs);
    k :| ComesFrom(t, id, hs, k);
    FileTypeOfWithType(hs[k].mode, FlagBits(hs[k].typeflag));
  }

  /** The inode of a path of the archive, and the header it is filled from. */
  lemma {:induction false} InodeOfPath(t: Table, hs: seq<Header>, k: nat) returns (id: nat)
    requires AllNamed(hs) && Holds(t, hs) && k < |hs|
    ensures id < |t| && Names(t, id) == Components(hs[k].name)
    ensures Names(t, t[id].parentid) == Front(Components(hs[k].name))
    ensures FirstWith(hs, k, Components(hs[k].name)) ==> FileType(t[id].mode) == TypeOf(hs[k])
  {
    var ws := Components(hs[k].name);
    assert Named(hs[k]);
    NamesOfResolved(t, ws);
    id := Resolve(t, ws, -1).value;
    var j := OriginHeader(t, hs, id);
  }

  /** The table has known types only, and its parents are directories, exactly when the archive is well-formed. */
  lemma {:induction false} TableIsWellFormed(t: Table, hs: seq<Header>)
    requires AllNamed(hs) && Holds(t, hs)
    ensures DirParents(t) && AllKnown(t) <==> WellFormed(hs)
  {
    if WellFormed(hs) {
      forall i | 0 <= i < |t| ensures Known(t[i]) && ParentIsDir(t, t[i].parentid) { InodeIsSound(t, hs, i); }
    }
    if DirParents(t) && AllKnown(t) { HeadersAreSound(t, hs); }
  }

  lemma {:induction false} InodeIsSound(t: Table, hs: seq<Header>, i: nat)
    requires AllNamed(hs) && Holds(t, hs) && WellFormed(hs) && i < |t|
    ensures Known(t[i]) && ParentIsDir(t, t[i].parentid)
  {
    var k := OriginHeader(t, hs, i);
    var up := t[i].parentid;
    if up != -1 {
      var j := OriginHeader(t, hs, up);
      assert Front(Components(hs[k].name)) == Names(t, up);
    }
  }

  lemma {:induction false} HeadersAreSound(t: Table, hs: seq<Header>)
    requires AllNamed(hs) && Holds(t, hs) && DirParents(t) && AllKnown(t)
    ensures WellFormed(hs)
  {
    forall k: nat | k < |hs| && FirstWith(hs, k, Components(hs[k].name))
      ensures TypeOf(hs[k]) in {S_IFDIR, S_IFREG, S_IFLNK}
    {
      var id := InodeOfPath(t, hs, k);
    }
    forall j: nat, k: nat | k < |hs| && FirstWith(hs, j, Front(Components(hs[k].name)))
      ensures TypeOf(hs[j]) == S_IFDIR
    {
      PathAboveIsDir(t, hs, j, k);
    }
  }

  lemma {:induction false} PathAboveIsDir(t: Table, hs: seq<Header>, j: nat, k: nat)
    requires AllNamed(hs) && Holds(t, hs) && DirParents(t) && k < |hs| && FirstWith(hs, j, Front(Components(hs[k].name)))
    ensures TypeOf(hs[j]) == S_IFDIR
  {
    var id := InodeOfPath(t, hs, k);
    InodeAboveIsDir(t, hs, j, id);
  }

  lemma {:induction false} InodeAboveIsDir(t: Table, hs: seq<Header>, j: nat, id: nat)
    requires AllNamed(hs) && Holds(t, hs) && DirParents(t) && id < |t| && FirstWith(hs, j, Names(t, t[id].parentid))
    ensures TypeOf(hs[j]) == S_IFDIR
  {
    var up := t[id].parentid;
    assert ParentIsDir(t, up);
    assert Named(hs[j]) && Names(t, up) != [];
    var i := OriginHeader(t, hs, up);
    SameFirst(hs, i, j, Names(t, up));
  }

  lemma {:induction false} SameFirst(hs: seq<Header>, i: nat, j: nat, ws: seq<string>)
    requires AllNamed(hs) && FirstWith(hs, i, ws) && FirstWith(hs, j, ws)
    ensures i == j
  {
  }

  /** A node as the header of its path says. */
  ghost predicate ShownFrom(v: View, h: Header)
    requires Named(h)
  {
    && v.name == Last(Components(h.name)) && v.mode % 4096 == h.mode % 4096
    && (v.kind == Dir <==> TypeOf(h) == 4) && (v.kind == File <==> TypeOf(h) == 8) && (v.kind == Link <==> TypeOf(h) == 10)
    && (v.kind == Dir || v.kind == File ==>
          if h.uid == 0 || h.uid == 1000 then v.uid == h.uid && v.gid == h.gid else v.uid == 0 && v.gid == 0)
    && (v.kind == File ==> v.size == h.size && !v.compressed && !v.load && v.src == "")
    && (v.kind == Link && |h.linkname| <= 100 ==> v.path == if h.typeflag == '1' then "/" + h.linkname else h.linkname)
  }

  /** The first header with the path of an inode is what a node is shown from. */
  ghost predicate NodeFrom(t: Table, hs: seq<Header>, v: View, id: int)
    requires Forest(t) && AllNamed(hs) && 0 <= id < |t|
  {
    exists k: nat :: FirstWith(hs, k, Names(t, id)) && ShownFrom(v, hs[k])
  }

  lemma {:induction false} NodeIsFromHeader(t: Table, hs: seq<Header>, v: View, id: nat)
    requires AllNamed(hs) && Holds(t, hs) && id < |t| && Shows(v, t[id])
    ensures NodeFrom(t, hs, v, id)
  {
    var k := InodeKeepsHeader(t, hs, id);
    assert ShownFrom(v, hs[k]);
  }

  /** From an archive to both files: what is printed reads back as the same tree, and every node of it lies
      on its path and is as the first header with that path says. That tree shows each inode once, which are the distinct paths of the
      archive, exactly when the archive is well-formed, and then the JSON printer does not give up. */
  lemma {:induction false} ArchiveIsPrinted(hs: seq<Header>, t: Table)
    requires AllNamed(hs) && MergeAll([], hs) == Some(t)
    ensures Holds(t, hs)
    ensures var ts := Below(t, -1, 0);
            && ReadTrees(JsonTrees(ts), 0) == Read(ts, |JsonTrees(ts)|)
            && ReadXml(XmlTrees(ts), 0) == Read(ts, |XmlTrees(ts)|)
            && |Preorder(ts)| == |Ids(t, -1, 0)| && AllIn(t, Ids(t, -1, 0))
            && Paths(ts, []) == AllNames(t, Ids(t, -1, 0))
            && forall k :: 0 <= k < |Preorder(ts)| ==> NodeFrom(t, hs, Preorder(ts)[k], Ids(t, -1, 0)[k])
    ensures AllListedOnce(t) <==> WellFormed(hs)
    ensures WellFormed(hs) ==> KnownBelow(t, -1, 0)
  {
    ArchiveContents(hs);
    TableIsWellFormed(t, hs);
    if WellFormed(hs) { AllKnownBelow(t, -1, 0); }
    BelowIsProper(t, -1, 0);
    JsonRoundTrip(Below(t, -1, 0));
    XmlRoundTrip(Below(t, -1, 0));
    NodesShowInodes(t, -1, 0);
    PathsAreNames(t, -1, 0);
    var ids, vs := Ids(t, -1, 0), Preorder(Below(t, -1, 0));
    forall k | 0 <= k < |vs| ensures NodeFrom(t, hs, vs[k], ids[k]) { NodeIsFromHeader(t, hs, vs[k], ids[k]); }
    TreeIsComplete(t);
  }
}
