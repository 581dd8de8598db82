/**
The directory tree an inode table describes, and which inodes it contains.
*/
module FsTrees {
  import opened FsInodes
  import opened Options

  /** What the printers show of one inode. */
  datatype View = View(kind: Kind, name: string, mode: int, size: int, uid: int, gid: int,
                       compressed: bool, load: bool, src: string, path: string)

  datatype Tree = Node(view: View, children: Trees)
  datatype Trees = Nil | Cons(head: Tree, tail: Trees)

  /** A directory and a file have an owner, a file has a size and flags, a link has a path. */
  function ViewOf(x: Inode): View
  {
    match KindOf(x.mode)
    case Dir => View(Dir, x.name, x.mode, 0, x.uid, x.gid, false, false, "", "")
    case File => View(File, x.name, x.mode, x.size, x.uid, x.gid, x.compressed, x.load, x.src, "")
    case Link => View(Link, x.name, x.mode, 0, 0, 0, false, false, "", x.link)
    case Other => View(Other, x.name, x.mode, 0, 0, 0, false, false, "", "")
  }

  predicate Known(x: Inode) { KindOf(x.mode) != Other }

  /** The trees below a parent whose roots have index `from` or more, in the order of the table.
      Inodes of unknown type are left out. The recursion ends because parents come first. */
  ghost function Below(t: Table, parent: int, from: nat): (ts: Trees)
    requires Forest(t) && -1 <= parent < |t| && from <= |t|
    decreases |t| - parent, |t| - from
  {
    if from == |t| then Nil
    else if t[from].parentid == parent && Known(t[from]) then
      Cons(Node(ViewOf(t[from]), if KindOf(t[from].mode) == Dir then Below(t, from, 0) else Nil), Below(t, parent, from + 1))
    else Below(t, parent, from + 1)
  }

  /** The indices of those inodes, parents before their children. */
  ghost function Ids(t: Table, parent: int, from: nat): (ids: seq<int>)
    requires Forest(t) && -1 <= parent < |t| && from <= |t|
    decreases |t| - parent, |t| - from
  {
    if from == |t| then []
    else if t[from].parentid == parent && Known(t[from]) then
      [from] + (if KindOf(t[from].mode) == Dir then Ids(t, from, 0) else []) + Ids(t, parent, from + 1)
    else Ids(t, parent, from + 1)
  }

  ghost function Preorder(ts: Trees): seq<View>
  {
    match ts
    case Nil => []
    case Cons(n, rest) => [n.view] + Preorder(n.children) + Preorder(rest)
  }

  ghost predicate AllIn(t: Table, ids: seq<int>) { forall i :: 0 <= i < |ids| ==> 0 <= ids[i] < |t| }

  ghost function Views(t: Table, ids: seq<int>): seq<View>
    requires AllIn(t, ids)
  {
    seq(|ids|, i requires 0 <= i < |ids| => ViewOf(t[ids[i]]))
  }

  lemma {:induction false} ViewsConcat(t: Table, first: int, inner: seq<int>, rest: seq<int>)
    requires 0 <= first < |t| && AllIn(t, inner) && AllIn(t, rest)
    ensures AllIn(t, [first] + inner + rest)
    ensures Views(t, [first] + inner + rest) == [ViewOf(t[first])] + Views(t, inner) + Views(t, rest)
  {
  }

  /** The trees show exactly the inodes listed. */
  lemma {:induction false} PreorderIsIds(t: Table, parent: int, from: nat)
    requires Forest(t) && -1 <= parent < |t| && from <= |t|
    ensures AllIn(t, Ids(t, parent, from))
    ensures Preorder(Below(t, parent, from)) == Views(t, Ids(t, parent, from))
    decreases |t| - parent, |t| - from
  {
    if from < |t| {
      PreorderIsIds(t, parent, from + 1);
      if t[from].parentid == parent && Known(t[from]) {
        var inner := if KindOf(t[from].mode) == Dir then Ids(t, from, 0) else [];
        if KindOf(t[from].mode) == Dir { PreorderIsIds(t, from, 0); }
        ViewsConcat(t, from, inner, Ids(t, parent, from + 1));
      }
    }
  }

  // ---------- what is shown ----------

  /** Name, mode and type of an inode; size, flags and source of a file; owner of a file or directory; target of a link. */
  ghost predicate Shows(v: View, x: Inode)
  {
    && v.name == x.name && v.mode == x.mode
    && (v.kind == Dir <==> FileType(x.mode) == 4) && (v.kind == File <==> FileType(x.mode) == 8)
    && (v.kind == Link <==> FileType(x.mode) == 10)
    && (v.kind == Dir || v.kind == File ==> v.uid == x.uid && v.gid == x.gid)
    && (v.kind == File ==> v.size == x.size && v.compressed == x.compressed && v.load == x.load && v.src == x.src)
    && (v.kind == Link ==> v.path == x.link)
  }

  /** Node k of the trees shows inode k of those listed. */
  lemma {:induction false} NodesShowInodes(t: Table, parent: int, from: nat)
    requires Forest(t) && -1 <= parent < |t| && from <= |t|
    ensures var ids, vs := Ids(t, parent, from), Preorder(Below(t, parent, from));
      |vs| == |ids| && forall k :: 0 <= k < |ids| ==> 0 <= ids[k] < |t| && Shows(vs[k], t[ids[k]])
  {
    PreorderIsIds(t, parent, from);
  }

  /** The paths of all nodes, below a node with the path `above`. */
  ghost function Paths(ts: Trees, above: seq<string>): seq<seq<string>>
  {
    match ts
    case Nil => []
    case Cons(n, rest) =>
      [above + [n.view.name]] + Paths(n.children, above + [n.view.name]) + Paths(rest, above)
  }

  ghost function AllNames(t: Table, ids: seq<int>): seq<seq<string>>
    requires Forest(t) && AllIn(t, ids)
  {
    seq(|ids|, i requires 0 <= i < |ids| => Names(t, ids[i]))
  }

  lemma {:induction false} NamesConcat(t: Table, first: int, inner: seq<int>, rest: seq<int>)
    requires Forest(t) && 0 <= first < |t| && AllIn(t, inner) && AllIn(t, rest)
    ensures AllIn(t, [first] + inner + rest)
    ensures AllNames(t, [first] + inner + rest) == [Names(t, first)] + AllNames(t, inner) + AllNames(t, rest)
  {
  }

  /** The nesting is that of the table: along the nodes down to a node lie the names of its full path. */
  lemma {:induction false} PathsAreNames(t: Table, parent: int, from: nat)
    requires Forest(t) && -1 <= parent < |t| && from <= |t|
    ensures AllIn(t, Ids(t, parent, from))
    ensures Paths(Below(t, parent, from), Names(t, parent)) == AllNames(t, Ids(t, parent, from))
    decreases |t| - parent, |t| - from
  {
    if from < |t| {
      PathsAreNames(t, parent, from + 1);
      if t[from].parentid == parent && Known(t[from]) {
        var inner := if KindOf(t[from].mode) == Dir then Ids(t, from, 0) else [];
        if KindOf(t[from].mode) == Dir { PathsAreNames(t, from, 0); }
        NamesConcat(t, from, inner, Ids(t, parent, from + 1));
      }
    }
  }

  // ---------- every inode once ----------

  /** The ancestor of i, or i itself, that is a child of p, when the way up from i goes through
      directories only. */
  ghost function Top(t: Table, p: int, i: int): (a: Option<int>)
    requires Forest(t) && -1 <= p && 0 <= i < |t|
    ensures a.Some? ==> p < a.value <= i && t[a.value].parentid == p
    decreases i
  {
    var up := t[i].parentid;
    if up == p then Some(i)
    else if up >= 0 && KindOf(t[up].mode) == Dir then Top(t, p, up)
    else None
  }

  lemma {:induction false} TopSplit(t: Table, p: int, from: int, i: int)
    requires Forest(t) && 0 <= i < |t| && 0 <= from < |t| && t[from].parentid == p
    ensures Top(t, p, i) == Some(from) <==> i == from || (KindOf(t[from].mode) == Dir && Top(t, from, i).Some?)
    decreases i
  {
    var up := t[i].parentid;
    if up >= 0 && up != p && up != from && KindOf(t[up].mode) == Dir {
      TopSplit(t, p, from, up);
    } else if up == from {
      assert Top(t, from, i) == Some(i);
      assert KindOf(t[from].mode) == Dir ==> Top(t, p, i) == Top(t, p, from);
    }
  }

  function Count(b: bool): nat { if b then 1 else 0 }

  lemma {:induction false} CountConcat(first: int, inner: seq<int>, rest: seq<int>, i: int)
    ensures multiset([first] + inner + rest)[i] == Count(i == first) + multiset(inner)[i] + multiset(rest)[i]
  {
    assert multiset([first] + inner + rest) == multiset{first} + multiset(inner) + multiset(rest);
  }

  /** An inode is listed once if the way up to the parent goes through directories, and not at all
      otherwise. */
  lemma {:induction false} ListedOnce(t: Table, parent: int, from: nat, i: int)
    requires Forest(t) && -1 <= parent < |t| && from <= |t| && 0 <= i < |t|
    ensures multiset(Ids(t, parent, from))[i] ==
            Count(Known(t[i]) && Top(t, parent, i).Some? && Top(t, parent, i).value >= from)
    decreases |t| - parent, |t| - from
  {
    if from < |t| {
      ListedOnce(t, parent, from + 1, i);
      if t[from].parentid == parent {
        TopSplit(t, parent, from, i);
        if Known(t[from]) {
          var inner := if KindOf(t[from].mode) == Dir then Ids(t, from, 0) else [];
          if KindOf(t[from].mode) == Dir { ListedOnce(t, from, 0, i); }
          CountConcat(from, inner, Ids(t, parent, from + 1), i);
        }
      }
    }
  }

  ghost predicate AllListedOnce(t: Table)
    requires Forest(t)
  {
    forall i :: 0 <= i < |t| ==> multiset(Ids(t, -1, 0))[i] == 1
  }

  ghost predicate AllKnown(t: Table) { forall i :: 0 <= i < |t| ==> Known(t[i]) }

  /** The whole tree contains every inode exactly once if and only if all types are known and
      every parent is a directory. */
  lemma {:induction false} TreeIsComplete(t: Table)
    requires Forest(t)
    ensures AllListedOnce(t) <==> DirParents(t) && AllKnown(t)
  {
    if AllListedOnce(t) {
      forall i | 0 <= i < |t| ensures Known(t[i]) && ParentIsDir(t, t[i].parentid) {
        ListedOnce(t, -1, 0, i);
      }
    }
    if DirParents(t) && AllKnown(t) {
      forall i | 0 <= i < |t| ensures multiset(Ids(t, -1, 0))[i] == 1 {
        AllReachable(t, i);
        ListedOnce(t, -1, 0, i);
      }
    }
  }

  lemma {:induction false} AllReachable(t: Table, i: int)
    requires Forest(t) && DirParents(t) && 0 <= i < |t|
    ensures Top(t, -1, i).Some?
    decreases i
  {
    assert ParentIsDir(t, t[i].parentid);
    if t[i].parentid != -1 { AllReachable(t, t[i].parentid); }
  }
}
