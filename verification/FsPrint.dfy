/**
The two printers of the directory tree, at the level of tokens: what is between quotes and the
layout (tabs, line ends) are not modelled. Each printer has a reader, and reading what was printed
gives the tree back.
*/
module FsPrint {
  import opened FsInodes
  import opened FsTrees

  // ---------- attributes ----------

  datatype Attr = Name(s: string) | Mode(n: int) | Size(n: int) | Uid(n: int) | Gid(n: int)
                | Compressed | Load | Src(s: string) | Path(s: string)

  function When(b: bool, a: Attr): seq<Attr> { if b then [a] else [] }

  /** Owner and group are printed when not 0, flags when set, the source when not empty. */
  function Attrs(v: View): (attrs: seq<Attr>)
  {
    [Name(v.name), Mode(v.mode)]
    + (if v.kind == File then [Size(v.size)] else if v.kind == Link then [Path(v.path)] else [])
    + (if v.kind == Link then [] else When(v.uid != 0, Uid(v.uid)) + When(v.gid != 0, Gid(v.gid)))
    + (if v.kind == File then When(v.compressed, Compressed) + When(v.load, Load) + When(v.src != "", Src(v.src)) else [])
  }

  function Set(v: View, a: Attr): View
  {
    match a
    case Name(s) => v.(name := s)
    case Mode(n) => v.(mode := n)
    case Size(n) => v.(size := n)
    case Uid(n) => v.(uid := n)
    case Gid(n) => v.(gid := n)
    case Compressed => v.(compressed := true)
    case Load => v.(load := true)
    case Src(s) => v.(src := s)
    case Path(s) => v.(path := s)
  }

  function Blank(kind: Kind): View { View(kind, "", 0, 0, 0, 0, false, false, "", "") }

  /** Reading attributes in any order, absent ones being 0, false or empty. */
  function SetAll(v: View, attrs: seq<Attr>): View
    decreases attrs
  {
    if attrs == [] then v else SetAll(Set(v, attrs[0]), attrs[1..])
  }

  lemma {:induction false} SetAllConcat(v: View, a: seq<Attr>, b: seq<Attr>)
    ensures SetAll(v, a + b) == SetAll(SetAll(v, a), b)
    decreases a
  {
    if a == [] {
      assert a + b == b;
    } else {
      assert (a + b)[0] == a[0] && (a + b)[1..] == a[1..] + b;
      SetAllConcat(Set(v, a[0]), a[1..], b);
    }
  }

  /** A view with nothing set that its kind does not print. */
  ghost predicate Canonical(v: View)
  {
    match v.kind
    case Dir => v == View(Dir, v.name, v.mode, 0, v.uid, v.gid, false, false, "", "")
    case File => v.path == ""
    case Link => v == View(Link, v.name, v.mode, 0, 0, 0, false, false, "", v.path)
    case Other => false
  }

  lemma {:induction false} SetOne(v: View, b: bool, a: Attr)
    ensures SetAll(v, When(b, a)) == if b then Set(v, a) else v
  {
    assert SetAll(v, []) == v;
    assert SetAll(v, [a]) == SetAll(Set(v, a), [a][1..]);
  }

  /** Reading the printed attributes gives the view back. */
  lemma {:induction false} AttrsRoundTrip(v: View)
    requires Canonical(v)
    ensures SetAll(Blank(v.kind), Attrs(v)) == v
  {
    var b := Blank(v.kind);
    var name, mode := When(true, Name(v.name)), When(true, Mode(v.mode));
    var names := name + mode;
    assert names == [Name(v.name), Mode(v.mode)];
    var special := if v.kind == File then [Size(v.size)] else if v.kind == Link then [Path(v.path)] else [];
    var uid, gid := When(v.uid != 0, Uid(v.uid)), When(v.gid != 0, Gid(v.gid));
    var owner := if v.kind == Link then [] else uid + gid;
    var packed, load, src := When(v.compressed, Compressed), When(v.load, Load), When(v.src != "", Src(v.src));
    var flags := if v.kind == File then packed + load + src else [];
    SetAllConcat(b, names + special + owner, flags);
    SetAllConcat(b, names + special, owner);
    SetAllConcat(b, names, special);
    SetAllConcat(b, name, mode);
    SetOne(b, true, Name(v.name));
    SetOne(SetAll(b, name), true, Mode(v.mode));
    var v1 := SetAll(b, names);
    assert v1 == b.(name := v.name, mode := v.mode);
    var v2 := SetAll(v1, special);
    SetOne(v1, v.kind == File, Size(v.size));
    SetOne(v1, v.kind == Link, Path(v.path));
    assert v2 == v1.(size := v.size, path := v.path);
    SetAllConcat(v2, uid, gid);
    SetOne(v2, v.uid != 0, Uid(v.uid));
    SetOne(SetAll(v2, uid), v.gid != 0, Gid(v.gid));
    var v3 := SetAll(v2, owner);
    assert v3 == v2.(uid := v.uid, gid := v.gid);
    SetAllConcat(v3, packed + load, src);
    SetAllConcat(v3, packed, load);
    SetOne(v3, v.compressed, Compressed);
    SetOne(SetAll(v3, packed), v.load, Load);
    SetOne(SetAll(v3, packed + load), v.src != "", Src(v.src));
  }

  /** Every attribute says what its name says, and none says what reading would supply. */
  lemma {:induction false} AttrsAreTrue(v: View, a: Attr)
    requires a in Attrs(v)
    ensures match a
            case Name(s) => s == v.name
            case Mode(n) => n == v.mode
            case Size(n) => n == v.size && v.kind == File
            case Uid(n) => n == v.uid != 0
            case Gid(n) => n == v.gid != 0
            case Compressed => v.compressed
            case Load => v.load
            case Src(s) => s == v.src != ""
            case Path(s) => s == v.path && v.kind == Link
  {
  }

  lemma {:induction false} AttrsTellLink(v: View)
    requires Canonical(v)
    ensures (exists i :: 0 <= i < |Attrs(v)| && Attrs(v)[i].Path?) <==> v.kind == Link
  {
    if v.kind == Link { assert Attrs(v)[2] == Path(v.path); }
  }

  /** Trees as the table gives them: canonical views, and children only below directories. */
  ghost predicate Proper(ts: Trees)
  {
    match ts
    case Nil => true
    case Cons(n, rest) =>
      Canonical(n.view) && (n.view.kind != Dir ==> n.children == Nil) && Proper(n.children) && Proper(rest)
  }

  lemma {:induction false} BelowIsProper(t: Table, parent: int, from: nat)
    requires Forest(t) && -1 <= parent < |t| && from <= |t|
    ensures Proper(Below(t, parent, from))
    decreases |t| - parent, |t| - from
  {
    if from < |t| {
      BelowIsProper(t, parent, from + 1);
      if t[from].parentid == parent && Known(t[from]) && KindOf(t[from].mode) == Dir { BelowIsProper(t, from, 0); }
    }
  }

  // ---------- JSON ----------

  datatype Json = Object(attrs: seq<Attr>) | ChildOpen | ChildClose | EndObject | Comma

  function JsonNode(n: Tree): seq<Json>
    decreases n, 0
  {
    [Object(Attrs(n.view))]
    + (if n.view.kind == Dir then [ChildOpen] + JsonTrees(n.children) + [ChildClose] else [])
    + [EndObject]
  }

  /** A comma follows every sibling but the last. */
  function JsonTrees(ts: Trees): seq<Json>
    decreases ts, 1
  {
    match ts
    case Nil => []
    case Cons(n, rest) => JsonNode(n) + (if rest == Nil then [] else [Comma]) + JsonTrees(rest)
  }

  datatype Parse<T> = Fail | Read(value: T, rest: nat)

  /** Reading one object from position p of the tokens. */
  function ReadNode(js: seq<Json>, p: nat): (r: Parse<Tree>)
    ensures r.Read? ==> p < r.rest <= |js|
    decreases |js| - p, 0
  {
    if p + 1 >= |js| || !js[p].Object? then Fail
    else if js[p + 1] == ChildOpen then
      var r := ReadTrees(js, p + 2);
      if r.Read? && r.rest + 1 < |js| && js[r.rest] == ChildClose && js[r.rest + 1] == EndObject then
        Read(Node(SetAll(Blank(Dir), js[p].attrs), r.value), r.rest + 2)
      else Fail
    else if js[p + 1] == EndObject then
      var kind := if exists i :: 0 <= i < |js[p].attrs| && js[p].attrs[i].Path? then Link else File;
      Read(Node(SetAll(Blank(kind), js[p].attrs), Nil), p + 2)
    else Fail
  }

  /** Reading siblings up to a closing bracket or the end; after a comma there must be another. */
  function ReadTrees(js: seq<Json>, p: nat): (r: Parse<Trees>)
    requires p <= |js|
    ensures r.Read? ==> p <= r.rest <= |js|
    decreases |js| - p, 2
  {
    if p == |js| || js[p] == ChildClose then Read(Nil, p) else ReadMore(js, p)
  }

  function ReadMore(js: seq<Json>, p: nat): (r: Parse<Trees>)
    requires p <= |js|
    ensures r.Read? ==> p < r.rest <= |js|
    decreases |js| - p, 1
  {
    var n := ReadNode(js, p);
    if n.Fail? then Fail
    else if n.rest < |js| && js[n.rest] == Comma then
      var r := ReadMore(js, n.rest + 1);
      if r.Fail? then Fail else Read(Cons(n.value, r.value), r.rest)
    else Read(Cons(n.value, Nil), n.rest)
  }

  /** The tokens from position p on are these, followed by others. */
  ghost predicate StartsAt<T>(js: seq<T>, p: nat, ts: seq<T>)
  {
    p + |ts| <= |js| && js[p..p + |ts|] == ts
  }

  lemma {:induction false} StartsAtConcat<T>(js: seq<T>, p: nat, a: seq<T>, b: seq<T>)
    requires StartsAt(js, p, a + b)
    ensures StartsAt(js, p, a) && StartsAt(js, p + |a|, b)
    ensures b != [] ==> js[p + |a|] == b[0]
  {
    var ab := js[p..p + |a + b|];
    assert ab[..|a|] == a && ab[|a|..] == b;
    assert js[p..p + |a|] == ab[..|a|] && js[p + |a|..p + |a| + |b|] == ab[|a|..];
    if b != [] { assert js[p + |a|] == ab[|a|]; }
  }

  /** The tokens of a printed directory, and of a printed file or link, by position. */
  lemma {:induction false} DirTokens(js: seq<Json>, p: nat, n: Tree, inner: seq<Json>)
    requires n.view.kind == Dir && inner == JsonTrees(n.children) && StartsAt(js, p, JsonNode(n))
    ensures var q := p + 2 + |inner|;
            && |JsonNode(n)| == |inner| + 4 && q + 2 <= |js|
            && js[p] == Object(Attrs(n.view)) && js[p + 1] == ChildOpen && StartsAt(js, p + 2, inner)
            && js[q] == ChildClose && js[q + 1] == EndObject
  {
    var first, last := [Object(Attrs(n.view))] + [ChildOpen], [ChildClose] + [EndObject];
    assert JsonNode(n) == first + (inner + last);
    StartsAtConcat(js, p, first, inner + last);
    StartsAtConcat(js, p + 2, inner, last);
    TwoTokens(js, p, Object(Attrs(n.view)), ChildOpen);
    TwoTokens(js, p + 2 + |inner|, ChildClose, EndObject);
  }

  lemma {:induction false} TwoTokens(js: seq<Json>, p: nat, a: Json, b: Json)
    requires StartsAt(js, p, [a] + [b])
    ensures p + 2 <= |js| && js[p] == a && js[p + 1] == b
  {
    var two := [a] + [b];
    assert js[p..p + |two|][0] == a && js[p..p + |two|][1] == b;
  }

  lemma {:induction false} LeafTokens(js: seq<Json>, p: nat, n: Tree)
    requires n.view.kind != Dir && StartsAt(js, p, JsonNode(n))
    ensures |JsonNode(n)| == 2 && p + 2 <= |js| && js[p] == Object(Attrs(n.view)) && js[p + 1] == EndObject
  {
    assert JsonNode(n) == [Object(Attrs(n.view))] + [EndObject];
    TwoTokens(js, p, Object(Attrs(n.view)), EndObject);
  }

  lemma {:induction false} SiblingTokens(js: seq<Json>, p: nat, n: Tree, rest: Trees, node: seq<Json>)
    requires node == JsonNode(n) && StartsAt(js, p, JsonTrees(Cons(n, rest)))
    ensures node != [] && p < |js| && js[p].Object? && StartsAt(js, p, node)
    ensures rest == Nil ==> |JsonTrees(Cons(n, rest))| == |node|
    ensures rest != Nil ==>
              && |JsonTrees(Cons(n, rest))| == |node| + 1 + |JsonTrees(rest)| && p + |node| < |js|
              && js[p + |node|] == Comma && StartsAt(js, p + |node| + 1, JsonTrees(rest))
  {
    var comma := if rest == Nil then [] else [Comma];
    assert JsonTrees(Cons(n, rest)) == node + (comma + JsonTrees(rest));
    StartsAtConcat(js, p, node, comma + JsonTrees(rest));
    assert node[0] == Object(Attrs(n.view)) && js[p] == js[p..p + |node|][0];
    if rest != Nil { StartsAtConcat(js, p + |node|, comma, JsonTrees(rest)); }
  }

  lemma {:induction false} ReadPrintedNode(js: seq<Json>, p: nat, n: Tree)
    requires Proper(Cons(n, Nil)) && StartsAt(js, p, JsonNode(n))
    ensures ReadNode(js, p) == Read(n, p + |JsonNode(n)|)
    decreases n, 0
  {
    AttrsRoundTrip(n.view);
    if n.view.kind == Dir {
      DirTokens(js, p, n, JsonTrees(n.children));
      ReadPrintedTrees(js, p + 2, n.children, p + 2 + |JsonTrees(n.children)|);
    } else {
      AttrsTellLink(n.view);
      LeafTokens(js, p, n);
    }
  }

  lemma {:induction false} ReadSibling(js: seq<Json>, p: nat, n: Tree, q: nat, rest: Trees, end: nat)
    requires p <= |js| && ReadNode(js, p) == Read(n, q)
    requires if rest == Nil then q == end && (end == |js| || js[end] != Comma)
             else q < |js| && js[q] == Comma && ReadMore(js, q + 1) == Read(rest, end)
    ensures ReadMore(js, p) == Read(Cons(n, rest), end)
  {
  }

  predicate Ends(js: seq<Json>, end: nat) { end == |js| || (end < |js| && js[end] == ChildClose) }

  lemma {:induction false} ReadPrintedMore(js: seq<Json>, p: nat, ts: Trees, end: nat)
    requires ts.Cons? && Proper(ts) && StartsAt(js, p, JsonTrees(ts))
    requires end == p + |JsonTrees(ts)| && Ends(js, end)
    ensures ReadMore(js, p) == Read(ts, end) && p < |js| && js[p] != ChildClose
    decreases ts, 1
  {
    var n, rest := ts.head, ts.tail;
    var q := p + |JsonNode(n)|;
    SiblingTokens(js, p, n, rest, JsonNode(n));
    ReadPrintedNode(js, p, n);
    if rest != Nil { ReadPrintedMore(js, q + 1, rest, end); }
    ReadSibling(js, p, n, q, rest, end);
  }

  /** Reading what was printed for siblings gives the siblings. */
  lemma {:induction false} ReadPrintedTrees(js: seq<Json>, p: nat, ts: Trees, end: nat)
    requires Proper(ts) && StartsAt(js, p, JsonTrees(ts))
    requires end == p + |JsonTrees(ts)| && Ends(js, end)
    ensures ReadTrees(js, p) == Read(ts, end)
    decreases ts, 2
  {
    if ts != Nil { ReadPrintedMore(js, p, ts, end); }
  }

  /** The printed JSON reads back as exactly the tree. */
  lemma {:induction false} JsonRoundTrip(ts: Trees)
    requires Proper(ts)
    ensures ReadTrees(JsonTrees(ts), 0) == Read(ts, |JsonTrees(ts)|)
  {
    var js := JsonTrees(ts);
    assert js[0..0 + |js|] == js;
    ReadPrintedTrees(js, 0, ts, |js|);
  }

  // ---------- XML ----------

  datatype Xml = DirTag(attrs: seq<Attr>) | DirEnd | FileTag(attrs: seq<Attr>) | LinkTag(attrs: seq<Attr>)

  function XmlNode(n: Tree): seq<Xml>
    decreases n, 0
  {
    match n.view.kind
    case Dir => [DirTag(Attrs(n.view))] + (XmlTrees(n.children) + [DirEnd])
    case File => [FileTag(Attrs(n.view))]
    case Link => [LinkTag(Attrs(n.view))]
    case Other => []
  }

  function XmlTrees(ts: Trees): seq<Xml>
    decreases ts, 1
  {
    match ts
    case Nil => []
    case Cons(n, rest) => XmlNode(n) + XmlTrees(rest)
  }

  /** Reading elements up to an end tag or the end of the text. */
  function ReadXml(xs: seq<Xml>, p: nat): (r: Parse<Trees>)
    requires p <= |xs|
    ensures r.Read? ==> p <= r.rest <= |xs|
    decreases |xs| - p
  {
    if p == |xs| || xs[p] == DirEnd then Read(Nil, p)
    else if xs[p].DirTag? then
      var inner := ReadXml(xs, p + 1);
      if inner.Fail? || inner.rest == |xs| then Fail
      else
        var r := ReadXml(xs, inner.rest + 1);
        if r.Fail? then Fail else Read(Cons(Node(SetAll(Blank(Dir), xs[p].attrs), inner.value), r.value), r.rest)
    else
      var kind := if xs[p].FileTag? then File else Link;
      var r := ReadXml(xs, p + 1);
      if r.Fail? then Fail else Read(Cons(Node(SetAll(Blank(kind), xs[p].attrs), Nil), r.value), r.rest)
  }

  /** The tokens of the first of some siblings, by position. */
  lemma {:induction false} XmlTokens(xs: seq<Xml>, p: nat, n: Tree, rest: Trees, node: seq<Xml>)
    requires Canonical(n.view) && node == XmlNode(n) && StartsAt(xs, p, XmlTrees(Cons(n, rest)))
    ensures |XmlTrees(Cons(n, rest))| == |node| + |XmlTrees(rest)| && StartsAt(xs, p + |node|, XmlTrees(rest))
    ensures node != [] && p < |xs| && xs[p] == node[0] && StartsAt(xs, p, node)
  {
    StartsAtConcat(xs, p, node, XmlTrees(rest));
    assert xs[p] == xs[p..p + |node|][0];
  }

  lemma {:induction false} XmlDirTokens(xs: seq<Xml>, p: nat, n: Tree, inner: seq<Xml>)
    requires n.view.kind == Dir && inner == XmlTrees(n.children) && StartsAt(xs, p, XmlNode(n))
    ensures |XmlNode(n)| == |inner| + 2 && StartsAt(xs, p + 1, inner)
    ensures p + 1 + |inner| < |xs| && xs[p + 1 + |inner|] == DirEnd
  {
    StartsAtConcat(xs, p, [DirTag(Attrs(n.view))], inner + [DirEnd]);
    StartsAtConcat(xs, p + 1, inner, [DirEnd]);
  }

  lemma {:induction false} ReadDirXml(xs: seq<Xml>, p: nat, q: nat, v: View, children: Trees, rest: Trees, end: nat)
    requires p < q < |xs| && xs[p].DirTag? && SetAll(Blank(Dir), xs[p].attrs) == v && xs[q] == DirEnd
    requires ReadXml(xs, p + 1) == Read(children, q) && ReadXml(xs, q + 1) == Read(rest, end)
    ensures ReadXml(xs, p) == Read(Cons(Node(v, children), rest), end)
  {
  }

  lemma {:induction false} ReadLeafXml(xs: seq<Xml>, p: nat, v: View, rest: Trees, end: nat)
    requires p < |xs| && (xs[p].FileTag? || xs[p].LinkTag?)
    requires SetAll(Blank(if xs[p].FileTag? then File else Link), xs[p].attrs) == v
    requires ReadXml(xs, p + 1) == Read(rest, end)
    ensures ReadXml(xs, p) == Read(Cons(Node(v, Nil), rest), end)
  {
  }

  predicate XmlEnds(xs: seq<Xml>, end: nat) { end == |xs| || (end < |xs| && xs[end] == DirEnd) }

  /** Reading what was printed for siblings gives the siblings. */
  lemma {:induction false} ReadPrintedXml(xs: seq<Xml>, p: nat, ts: Trees, end: nat)
    requires Proper(ts) && StartsAt(xs, p, XmlTrees(ts)) && end == p + |XmlTrees(ts)| && XmlEnds(xs, end)
    ensures ReadXml(xs, p) == Read(ts, end)
    decreases ts, 1
  {
    if ts != Nil {
      var n, rest := ts.head, ts.tail;
      XmlTokens(xs, p, n, rest, XmlNode(n));
      if n.view.kind == Dir {
        XmlDirTokens(xs, p, n, XmlTrees(n.children));
        ReadPrintedDir(xs, p, ts, p + 1 + |XmlTrees(n.children)|, end);
      } else {
        ReadPrintedXml(xs, p + 1, rest, end);
        ReadPrintedLeaf(xs, p, n.view, rest, end);
      }
    }
  }

  lemma {:induction false} ReadPrintedLeaf(xs: seq<Xml>, p: nat, v: View, rest: Trees, end: nat)
    requires Canonical(v) && v.kind != Dir && p < |xs| && xs[p] == (if v.kind == File then FileTag(Attrs(v)) else LinkTag(Attrs(v)))
    requires ReadXml(xs, p + 1) == Read(rest, end)
    ensures ReadXml(xs, p) == Read(Cons(Node(v, Nil), rest), end)
  {
    AttrsRoundTrip(v);
    ReadLeafXml(xs, p, v, rest, end);
  }

  lemma {:induction false} ReadPrintedDir(xs: seq<Xml>, p: nat, ts: Trees, q: nat, end: nat)
    requires ts.Cons? && ts.head.view.kind == Dir && Proper(ts)
    requires p < |xs| && xs[p] == DirTag(Attrs(ts.head.view)) && q < |xs| && xs[q] == DirEnd
    requires q == p + 1 + |XmlTrees(ts.head.children)| && StartsAt(xs, p + 1, XmlTrees(ts.head.children))
    requires end == q + 1 + |XmlTrees(ts.tail)| && StartsAt(xs, q + 1, XmlTrees(ts.tail)) && XmlEnds(xs, end)
    ensures ReadXml(xs, p) == Read(ts, end)
    decreases ts, 0
  {
    var n := ts.head;
    AttrsRoundTrip(n.view);
    ReadPrintedXml(xs, p + 1, n.children, q);
    ReadPrintedXml(xs, q + 1, ts.tail, end);
    ReadDirXml(xs, p, q, n.view, n.children, ts.tail, end);
  }

  /** The printed XML reads back as exactly the tree. */
  lemma {:induction false} XmlRoundTrip(ts: Trees)
    requires Proper(ts)
    ensures ReadXml(XmlTrees(ts), 0) == Read(ts, |XmlTrees(ts)|)
  {
    var xs := XmlTrees(ts);
    assert xs[0..0 + |xs|] == xs;
    ReadPrintedXml(xs, 0, ts, |xs|);
  }
}
