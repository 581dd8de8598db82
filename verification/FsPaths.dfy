/** Path strings of the archive converter: splitting a name into components and putting the
    components of a path together again. */
module FsPaths {

  predicate NoSlash(s: string) { '/' !in s }

  ghost predicate AllNoSlash(ws: seq<string>) { forall i :: 0 <= i < |ws| ==> NoSlash(ws[i]) }

  /** Where the scan of a name starts: after a leading '/', or two characters into a name that
      starts with '.'. */
  function Start(name: string): nat
    requires |name| > 0
  {
    if name[0] == '.' then 2 else if name[0] == '/' then 1 else 0
  }

  function From(name: string, i: nat): string { if i <= |name| then name[i..] else "" }

  /** The pieces after one more character. */
  function Extend(ws: seq<string>, c: char): (vs: seq<string>)
    requires ws != []
    ensures vs != []
  {
    if c == '/' then ws + [""] else ws[..|ws| - 1] + [ws[|ws| - 1] + [c]]
  }

  /** The pieces between slashes, empty ones included. */
  function Pieces(s: string): (ws: seq<string>)
    ensures ws != []
  {
    if s == "" then [""] else Extend(Pieces(s[..|s| - 1]), s[|s| - 1])
  }

  lemma {:induction false} PiecesSnoc(s: string, c: char)
    ensures Pieces(s + [c]) == Extend(Pieces(s), c)
  {
    assert (s + [c])[..|s|] == s;
  }

  /** The components of a name: a trailing slash does not count for a component. */
  function Components(name: string): (ws: seq<string>)
    requires |name| > 0
  {
    var ws := Pieces(From(name, Start(name)));
    if name[|name| - 1] == '/' then ws[..|ws| - 1] else ws
  }

  lemma {:induction false} ExtendLast(walk: seq<string>, piece: string, c: char)
    ensures Extend(walk + [piece], c) == if c == '/' then walk + [piece] + [""] else walk + [piece + [c]]
  {
    assert (walk + [piece])[..|walk|] == walk;
  }

  lemma {:induction false} PrefixSnoc(s: string, k: nat)
    requires k < |s|
    ensures Pieces(s[..k + 1]) == Extend(Pieces(s[..k]), s[k])
  {
    assert s[..k + 1] == s[..k] + [s[k]];
    PiecesSnoc(s[..k], s[k]);
  }

  /** Split: one scan that cuts the name at its slashes. */
  method Split(name: string) returns (walk: seq<string>)
    requires |name| > 0
    ensures walk == Components(name)
  {
    var n := |name|;
    var i := 0;
    if name[0] == '/' {
      i := 1;
    }
    if name[0] == '.' {
      i := 2;
    }
    walk := [];
    var piece := "";
    ghost var text, k: nat := From(name, i), 0;
    assert text[..0] == "" && walk + [piece] == [""];
    while i < n
      invariant k <= |text| && (i < n <==> k < |text|)
      invariant i < n ==> |text| - k == n - i && text[k] == name[i]
      invariant walk + [piece] == Pieces(text[..k])
    {
      PrefixSnoc(text, k);
      ExtendLast(walk, piece, name[i]);
      if name[i] == '/' {
        walk := walk + [piece];
        piece := "";
      } else {
        piece := piece + [name[i]];
      }
      i, k := i + 1, k + 1;
      assert i < n ==> text[k] == name[i];
    }
    assert text[..k] == text;
    walk := walk + [piece];
    if name[n - 1] == '/' {
      walk := walk[..|walk| - 1];
    }
  }

  // ---------- joining ----------

  /** The components with a slash before each of them. */
  function Absolute(ws: seq<string>): (s: string)
  {
    if ws == [] then "" else Absolute(ws[..|ws| - 1]) + "/" + ws[|ws| - 1]
  }

  lemma {:induction false} PiecesNoSlash(s: string)
    ensures AllNoSlash(Pieces(s))
  {
    if s != "" { PiecesNoSlash(s[..|s| - 1]); }
  }

  lemma {:induction false} AppendAssociates(a: string, b: string, c: char)
    ensures a + (b + [c]) == (a + b) + [c]
  {
  }

  /** Text without slashes extends the last piece. */
  lemma {:induction false} PiecesExtend(s: string, front: seq<string>, last: string, w: string)
    requires NoSlash(w) && Pieces(s) == front + [last]
    ensures Pieces(s + w) == front + [last + w]
  {
    if w == "" {
      assert s + w == s && last + w == last;
    } else {
      var v, c := w[..|w| - 1], w[|w| - 1];
      assert w == v + [c];
      AppendAssociates(s, v, c);
      AppendAssociates(last, v, c);
      PiecesExtend(s, front, last, v);
      PiecesSnoc(s + v, c);
      ExtendLast(front, last + v, c);
    }
  }

  /** Cutting an absolute path gives its components back, after one empty piece. */
  lemma {:induction false} PiecesOfAbsolute(ws: seq<string>)
    requires AllNoSlash(ws)
    ensures Pieces(Absolute(ws)) == [""] + ws
  {
    if ws == [] {
      assert [""] + ws == [""];
    } else {
      var rest, w := ws[..|ws| - 1], ws[|ws| - 1];
      PiecesOfAbsolute(rest);
      PiecesSnoc(Absolute(rest), '/');
      assert Absolute(rest) + ['/'] == Absolute(rest) + "/";
      PiecesExtend(Absolute(rest) + "/", [""] + rest, "", w);
      assert "" + w == w && [""] + rest + [w] == [""] + ws;
    }
  }

  lemma {:induction false} AbsoluteSnoc(ws: seq<string>, w: string)
    ensures Absolute(ws + [w]) == Absolute(ws) + "/" + w
  {
    assert (ws + [w])[..|ws|] == ws;
  }

  /** ... and putting the pieces of any text together again gives the text. */
  lemma {:induction false} AbsoluteOfPieces(s: string)
    ensures Absolute(Pieces(s)) == "/" + s
  {
    if s == "" {
      AbsoluteSnoc([], "");
      assert [] + [""] == [""];
    } else {
      var t, c := s[..|s| - 1], s[|s| - 1];
      AbsoluteOfPieces(t);
      AbsoluteExtended(Pieces(t), t, c);
      assert s == t + [c];
    }
  }

  lemma {:induction false} AbsoluteExtended(ws: seq<string>, t: string, c: char)
    requires ws != [] && Absolute(ws) == "/" + t
    ensures Absolute(Extend(ws, c)) == "/" + (t + [c])
  {
    if c == '/' {
      AbsoluteSnoc(ws, "");
    } else {
      var front, w := ws[..|ws| - 1], ws[|ws| - 1];
      assert ws == front + [w];
      LongerLast(front, w, t, c);
    }
  }

  lemma {:induction false} LongerLast(front: seq<string>, w: string, t: string, c: char)
    requires Absolute(front + [w]) == "/" + t
    ensures Absolute(front + [w + [c]]) == "/" + (t + [c])
  {
    AbsoluteSnoc(front, w);
    AbsoluteSnoc(front, w + [c]);
    AppendAssociates(Absolute(front) + "/", w, c);
    AppendAssociates("/", t, c);
  }

  lemma {:induction false} ExtendTail(x: string, ws: seq<string>, c: char)
    requires ws != []
    ensures Extend([x] + ws, c) == [x] + Extend(ws, c)
  {
    assert ([x] + ws)[..|ws|] == [x] + ws[..|ws| - 1];
  }

  lemma {:induction false} PiecesOfTail(s: string)
    ensures Pieces("/" + s) == [""] + Pieces(s)
  {
    if s == "" {
      assert "/" + s == "/" && ("/")[..0] == "";
    } else {
      var t, c := s[..|s| - 1], s[|s| - 1];
      PiecesOfTail(t);
      ExtendTail("", Pieces(t), c);
      PiecesSnoc("/" + t, c);
      assert "/" + t + [c] == "/" + s;
    }
  }

  lemma {:induction false} AbsoluteStarts(ws: seq<string>)
    requires ws != []
    ensures Absolute(ws) != "" && Absolute(ws)[0] == '/'
  {
    if |ws| > 1 { AbsoluteStarts(ws[..|ws| - 1]); }
  }

  /** Splitting a full path gives back its components, except an empty last one, which looks like
      a trailing slash. */
  lemma {:induction false} ComponentsOfAbsolute(ws: seq<string>)
    requires AllNoSlash(ws) && ws != []
    ensures Absolute(ws) != ""
    ensures Components(Absolute(ws)) == if ws[|ws| - 1] == "" then ws[..|ws| - 1] else ws
  {
    AbsoluteStarts(ws);
    var s := Absolute(ws);
    PiecesOfAbsolute(ws);
    PiecesOfTail(s[1..]);
    assert s == "/" + s[1..];
    assert ([""] + ws)[1..] == ws && ([""] + Pieces(s[1..]))[1..] == Pieces(s[1..]);
    var w := ws[|ws| - 1];
    if w != "" {
      assert s[|s| - 1] == w[|w| - 1] && NoSlash(w);
    }
  }

  /** A path from the current directory has the same components as one from the root. */
  lemma {:induction false} ComponentsOfDotted(ws: seq<string>)
    requires AllNoSlash(ws) && ws != []
    ensures Absolute(ws) != "" && Components("." + Absolute(ws)) == Components(Absolute(ws))
  {
    AbsoluteStarts(ws);
    var s := Absolute(ws);
    assert ("." + s)[2..] == s[1..];
    if |s| == 1 { assert s[1..] == ""; }
  }

  /** A name that starts with a dot and another character than a slash loses that character as well: it is split as
      if the character were a slash. */
  lemma {:induction false} DottedLosesTwo(c: char, s: string)
    requires s != ""
    ensures Components("." + [c] + s) == Components("./" + s)
    ensures Components("./" + s) == if s[|s| - 1] == '/' then Pieces(s)[..|Pieces(s)| - 1] else Pieces(s)
  {
    assert ("." + [c] + s)[2..] == s && ("./" + s)[2..] == s;
    assert ("./" + s)[|s| + 1] == s[|s| - 1] && ("." + [c] + s)[|s| + 1] == s[|s| - 1];
  }

  lemma {:induction false} ComponentsNoSlash(name: string)
    requires |name| > 0
    ensures AllNoSlash(Components(name))
  {
    PiecesNoSlash(From(name, Start(name)));
  }

  /** A path without slashes in its components is determined by its text. */
  lemma {:induction false} AbsoluteInjective(a: seq<string>, b: seq<string>)
    requires AllNoSlash(a) && AllNoSlash(b) && Absolute(a) == Absolute(b)
    ensures a == b
  {
    PiecesOfAbsolute(a);
    PiecesOfAbsolute(b);
    assert ([""] + a)[1..] == a && ([""] + b)[1..] == b;
  }
}
