/**
The extension lists of the Mesa demos: a list of names separated by spaces is taken apart by two
passes, printed word-wrapped, put together from names, and searched with strstr.
C strings are strings without their final NUL character.
*/
module ExtensionList {

  // ---------- words of a text ----------

  const BLANK: set<char> := {' '}

  /** What print_extension_list puts between names. */
  const LAYOUT: set<char> := {' ', ',', '\n'}

  function Emit(cur: string): seq<string> { if cur == "" then [] else [cur] }

  /** The words of cur + rest, where cur is the part of a word read so far. */
  function Words(cur: string, rest: string, seps: set<char>): seq<string>
    decreases |rest|
  {
    if rest == "" then Emit(cur)
    else if rest[0] in seps then Emit(cur) + Words("", rest[1..], seps)
    else Words(cur + [rest[0]], rest[1..], seps)
  }

  function Tokens(s: string): seq<string> { Words("", s, BLANK) }

  predicate Free(t: string, seps: set<char>) { forall i :: 0 <= i < |t| ==> t[i] !in seps }

  /** t is a maximal stretch without spaces, and starts at i. */
  ghost predicate TokenAt(s: string, i: nat, t: string)
  {
    && t != "" && Free(t, BLANK)
    && i + |t| <= |s| && s[i..i + |t|] == t
    && (i == 0 || s[i - 1] == ' ')
    && (i + |t| == |s| || s[i + |t|] == ' ')
  }

  lemma {:induction false} TokenFromWords(s: string, i: nat, j: nat, t: string) returns (p: nat)
    requires i <= j <= |s| && (i == 0 || s[i - 1] == ' ') && Free(s[i..j], BLANK)
    requires t in Words(s[i..j], s[j..], BLANK)
    ensures TokenAt(s, p, t)
    decreases |s| - j
  {
    if j == |s| {
      p := i;
    } else {
      var rest := s[j..];
      assert rest[0] == s[j] && rest[1..] == s[j + 1..];
      if s[j] == ' ' {
        if t in Emit(s[i..j]) {
          p := i;
        } else {
          assert s[j + 1..j + 1] == "";
          p := TokenFromWords(s, j + 1, j + 1, t);
        }
      } else {
        assert s[i..j] + [s[j]] == s[i..j + 1];
        p := TokenFromWords(s, i, j + 1, t);
      }
    }
  }

  lemma {:induction false} WordsFromToken(s: string, i: nat, j: nat, p: nat, t: string)
    requires i <= j <= |s| && Free(s[i..j], BLANK)
    requires TokenAt(s, p, t) && p >= i
    ensures t in Words(s[i..j], s[j..], BLANK)
    decreases |s| - j
  {
    StartsHere(s, i, j, p, t);
    if j < |s| {
      var rest := s[j..];
      assert rest[0] == s[j] && rest[1..] == s[j + 1..];
      if s[j] == ' ' {
        if p != i {
          assert s[j + 1..j + 1] == "";
          WordsFromToken(s, j + 1, j + 1, p, t);
        }
      } else {
        assert s[i..j] + [s[j]] == s[i..j + 1];
        WordsFromToken(s, i, j + 1, p, t);
      }
    }
  }

  lemma {:induction false} FreeAt(s: string, i: nat, j: nat, k: nat)
    requires i <= k < j <= |s| && Free(s[i..j], BLANK)
    ensures s[k] != ' '
  {
    assert s[i..j][k - i] == s[k];
  }

  /** A token either starts where the current word does, or after its end. */
  lemma {:induction false} StartsHere(s: string, i: nat, j: nat, p: nat, t: string)
    requires i <= j <= |s| && Free(s[i..j], BLANK)
    requires TokenAt(s, p, t) && p >= i
    ensures p == i || p > j
    ensures p == i && (j == |s| || s[j] == ' ') ==> t == s[i..j]
  {
    var e := p + |t|;
    if i < p <= j {
      FreeAt(s, i, j, p - 1);
    } else if p == i && (j == |s| || s[j] == ' ') {
      if e < j {
        FreeAt(s, i, j, e);
      } else if e > j {
        FreeAt(s, p, e, j);
      }
    }
  }

  /** The tokens are exactly the maximal stretches without spaces. */
  lemma {:induction false} TokensAreMaximal(s: string, t: string)
    ensures t in Tokens(s) <==> exists i :: TokenAt(s, i, t)
  {
    assert s[0..0] == "" && s[0..] == s;
    if t in Tokens(s) {
      var p := TokenFromWords(s, 0, 0, t);
    }
    if i :| TokenAt(s, i, t) {
      WordsFromToken(s, 0, 0, i, t);
    }
  }

  // ---------- the two passes ----------

  /** The character at an index, the terminator included. */
  function CharAt(s: string, j: nat): char
    requires j <= |s|
  {
    if j < |s| then s[j] else '\0'
  }

  ghost predicate NoNul(s: string) { forall i :: 0 <= i < |s| ==> s[i] != '\0' }

  /** Number of word ends in the text, inside a word or not at its start. */
  ghost function Ends(inWord: bool, rest: string): nat
    decreases |rest|
  {
    var end := if inWord then 1 else 0;
    if rest == "" then end
    else if rest[0] == ' ' then end + Ends(false, rest[1..])
    else Ends(true, rest[1..])
  }

  lemma {:induction false} EndsCountWords(cur: string, rest: string)
    ensures |Words(cur, rest, BLANK)| == Ends(cur != "", rest)
    decreases |rest|
  {
    if rest != "" {
      EndsCountWords(if rest[0] == ' ' then "" else cur + [rest[0]], rest[1..]);
    }
  }

  /** First pass of print_extension_list: count, ignoring successive spaces. */
  method CountNames(ext: string) returns (count: nat)
    requires ext != "" && NoNul(ext)
    ensures count == |Tokens(ext)|
  {
    count := 0;
    var j := 1;
    while true
      invariant 1 <= j <= |ext|
      invariant count + Ends(ext[j - 1] != ' ', ext[j..]) == Ends(false, ext)
      decreases |ext| - j
    {
      if (CharAt(ext, j) == ' ' || CharAt(ext, j) == '\0') && ext[j - 1] != ' ' {
        count := count + 1;
      }
      var more := CharAt(ext, j) != '\0';
      if more { assert ext[j..][0] == ext[j] && ext[j..][1..] == ext[j + 1..]; }
      j := j + 1;
      if !more { break; }
    }
    EndsCountWords("", ext);
  }

  /** Second pass: the array has a cell for every name, and is filled to its end. */
  method CopyNames(ext: string, count: nat) returns (names: array<string>)
    requires NoNul(ext) && count == |Tokens(ext)|
    ensures fresh(names) && names[..] == Tokens(ext)
  {
    names := new string[count];
    var i, j, k := 0, 0, 0;
    assert ext[0..0] == "" && ext[0..] == ext;
    while true
      invariant 0 <= i <= j <= |ext| && k <= count
      invariant names[..k] + Words(ext[i..j], ext[j..], BLANK) == Tokens(ext)
      decreases |ext| - j
    {
      if j < |ext| { assert ext[j..][0] == ext[j] && ext[j..][1..] == ext[j + 1..]; }
      if CharAt(ext, j) == ' ' || CharAt(ext, j) == '\0' {
        var len := j - i;
        ghost var rest := if j == |ext| then [] else Words("", ext[j + 1..], BLANK);
        assert names[..k] + (Emit(ext[i..j]) + rest) == Tokens(ext);
        if len != 0 {
          assert k < count;
          names[k] := ext[i..j];
          k := k + 1;
          assert names[..k] + rest == names[..k - 1] + ([ext[i..j]] + rest);
        }
        i := i + len + 1;
        if CharAt(ext, j) == '\0' {
          assert names[..k] == Tokens(ext);
          break;
        }
        assert ext[i..j + 1] == "";
      } else {
        assert ext[i..j] + [ext[j]] == ext[i..j + 1];
      }
      j := j + 1;
    }
  }

  // ---------- printing ----------

  const INDENT := 4
  const MAX := 79
  const INDENT_STRING := "    "

  predicate Wraps(width: nat, len: nat, singleLine: bool) { !singleLine && width + len > MAX }

  /** What is printed in front of a name, and behind it. */
  function Before(wrap: bool): string { if wrap then "\n" + INDENT_STRING else "" }

  function After(singleLine: bool, last: bool): string
  {
    if singleLine then "\n" + INDENT_STRING else if last then "" else ", "
  }

  /** What is printed for the remaining names. */
  function Layout(names: seq<string>, width: nat, singleLine: bool): string
  {
    if names == [] then "\n"
    else
      var wrap := Wraps(width, |names[0]|, singleLine);
      var next := if singleLine then INDENT else (if wrap then INDENT else width) + |names[0]| + 3;
      Before(wrap) + names[0] + After(singleLine, |names| == 1) + Layout(names[1..], next, singleLine)
  }

  function Printed(names: seq<string>, singleLine: bool): string
  {
    INDENT_STRING + Layout(names, INDENT, singleLine)
  }

  lemma {:induction false} LayoutStep(names: seq<string>, width: nat, singleLine: bool, next: nat)
    requires names != []
    requires next == if singleLine then INDENT
                     else (if Wraps(width, |names[0]|, singleLine) then INDENT else width) + |names[0]| + 3
    ensures Layout(names, width, singleLine)
         == Before(Wraps(width, |names[0]|, singleLine)) + names[0] + After(singleLine, |names| == 1)
          + Layout(names[1..], next, singleLine)
  {
  }

  lemma {:induction false} Moved(out: string, a: string, b: string, c: string, rest: string)
    ensures out + (a + b + c + rest) == (((out + a) + b) + c) + rest
  {
  }

  /** A new line where the name would not fit. */
  method PrintBefore(printed: string, at: nat, len: nat, singleLine: bool) returns (out: string, width: nat)
    ensures out == printed + Before(Wraps(at, len, singleLine)) && width == if Wraps(at, len, singleLine) then INDENT else at
  {
    out, width := printed, at;
    if !singleLine && width + len > MAX {
      out := out + "\n";
      width := INDENT;
      out := out + INDENT_STRING;
    }
  }

  /** What separates a name from the next one. */
  method PrintAfter(printed: string, at: nat, singleLine: bool, last: bool) returns (out: string, width: nat)
    ensures out == printed + After(singleLine, last)
    ensures width == if singleLine then INDENT else if last then at else at + 2
  {
    out, width := printed, at;
    if singleLine {
      out := out + "\n";
      width := INDENT;
      out := out + INDENT_STRING;
    } else if !last {
      out := out + ", ";
      width := width + 2;
    }
  }

  /** Third pass: print with word-wrapping. */
  method PrintNames(names: seq<string>, singleLine: bool) returns (out: string)
    ensures out == Printed(names, singleLine)
  {
    var width := INDENT;
    out := INDENT_STRING;
    var k := 0;
    ghost var rest := Layout(names, width, singleLine);
    while k < |names|
      invariant 0 <= k <= |names| && width >= 0
      invariant rest == Layout(names[k..], width, singleLine)
      invariant out + rest == Printed(names, singleLine)
    {
      var len := |names[k]|;
      ghost var wrap := Wraps(width, len, singleLine);
      ghost var next := if singleLine then INDENT else (if wrap then INDENT else width) + len + 3;
      ghost var more := Layout(names[k + 1..], next, singleLine);
      LayoutStep(names[k..], width, singleLine, next);
      assert names[k..][1..] == names[k + 1..];
      Moved(out, Before(wrap), names[k], After(singleLine, k == |names| - 1), more);
      out, width := PrintBefore(out, width, len, singleLine);
      out := out + names[k];
      out, width := PrintAfter(out, width + len + 1, singleLine, k == |names| - 1);
      k := k + 1;
      rest := more;
    }
    out := out + "\n";
  }

  /** print_extension_list; the order qsort leaves the names in is a parameter. */
  method PrintExtensionList(ext: string, singleLine: bool, sort: seq<string> -> seq<string>) returns (out: string)
    requires NoNul(ext) && |sort(Tokens(ext))| == |Tokens(ext)|
    ensures out == if ext == "" then "" else Printed(sort(Tokens(ext)), singleLine)
  {
    if ext == "" { return ""; }
    var count := CountNames(ext);
    var names := CopyNames(ext, count);
    var sorted := sort(names[..]);
    forall k | 0 <= k < names.Length { names[k] := sorted[k]; }
    assert names[..] == sorted;
    out := PrintNames(names[..], singleLine);
  }

  // ---------- reading the printed list back ----------

  lemma {:induction false} WordsThroughName(cur: string, name: string, rest: string, seps: set<char>)
    requires Free(name, seps)
    ensures Words(cur, name + rest, seps) == Words(cur + name, rest, seps)
    decreases |name|
  {
    if name == "" {
      assert name + rest == rest && cur + name == cur;
    } else {
      var all := name + rest;
      assert all[0] == name[0] && all[1..] == name[1..] + rest;
      assert cur + name == (cur + [name[0]]) + name[1..];
      WordsThroughName(cur + [name[0]], name[1..], rest, seps);
    }
  }

  ghost predicate Only(p: string, seps: set<char>) { forall i :: 0 <= i < |p| ==> p[i] in seps }

  lemma {:induction false} WordsThroughSeps(p: string, rest: string, seps: set<char>)
    requires Only(p, seps)
    ensures Words("", p + rest, seps) == Words("", rest, seps)
    decreases |p|
  {
    if p == "" {
      assert p + rest == rest;
    } else {
      var all := p + rest;
      assert all[0] == p[0] && all[1..] == p[1..] + rest;
      WordsThroughSeps(p[1..], rest, seps);
    }
  }

  /** A name between separators is read as one word. */
  lemma {:induction false} NameBetween(pre: string, name: string, post: string, rest: string, seps: set<char>)
    requires Only(pre, seps) && Only(post, seps) && post != "" && name != "" && Free(name, seps)
    ensures Words("", pre + name + post + rest, seps) == [name] + Words("", rest, seps)
  {
    var tail := post[1..] + rest;
    assert pre + name + post + rest == pre + (name + ([post[0]] + tail));
    WordsThroughSeps(pre, name + ([post[0]] + tail), seps);
    WordsThroughName("", name, [post[0]] + tail, seps);
    assert "" + name == name;
    assert ([post[0]] + tail)[1..] == tail;
    WordsThroughSeps(post[1..], rest, seps);
  }

  /** Names that can be told apart again in a text with these separators. */
  ghost predicate Readable(names: seq<string>, seps: set<char>)
  {
    forall k :: 0 <= k < |names| ==> names[k] != "" && Free(names[k], seps)
  }

  lemma {:induction false} LayoutReadsBack(names: seq<string>, width: nat, singleLine: bool)
    requires Readable(names, LAYOUT)
    ensures Words("", Layout(names, width, singleLine), LAYOUT) == names
    decreases |names|
  {
    if names == [] {
      assert "\n"[1..] == "";
    } else {
      var wrap := Wraps(width, |names[0]|, singleLine);
      var next := if singleLine then INDENT else (if wrap then INDENT else width) + |names[0]| + 3;
      LayoutStep(names, width, singleLine, next);
      LayoutReadsBack(names[1..], next, singleLine);
      PieceReadsBack(names, wrap, After(singleLine, |names| == 1), Layout(names[1..], next, singleLine));
    }
  }

  /** The first name with what stands around it, and a text that shows the others. */
  lemma {:induction false} PieceReadsBack(names: seq<string>, wrap: bool, post: string, rest: string)
    requires names != [] && names[0] != "" && Free(names[0], LAYOUT) && Only(post, LAYOUT)
    requires post == "" ==> rest == "\n"
    requires Words("", rest, LAYOUT) == names[1..]
    ensures Words("", Before(wrap) + names[0] + post + rest, LAYOUT) == names
  {
    if post == "" {
      assert Before(wrap) + names[0] + post + rest == Before(wrap) + names[0] + rest + "";
      NameBetween(Before(wrap), names[0], rest, "", LAYOUT);
      assert "\n"[1..] == "";
    } else {
      NameBetween(Before(wrap), names[0], post, rest, LAYOUT);
    }
  }

  /** The printed list shows exactly the given names, in their order, in both modes. */
  lemma {:induction false} PrintedReadsBack(names: seq<string>, singleLine: bool)
    requires Readable(names, LAYOUT)
    ensures Words("", Printed(names, singleLine), LAYOUT) == names
  {
    LayoutReadsBack(names, INDENT, singleLine);
    WordsThroughSeps(INDENT_STRING, Layout(names, INDENT, singleLine), LAYOUT);
  }

  // ---------- the margin ----------

  /** Printed from this column, no character but blanks and commas stands past the margin. */
  predicate Narrow(col: nat, s: string)
    decreases |s|
  {
    if s == "" then true
    else if s[0] == '\n' then Narrow(0, s[1..])
    else (s[0] in LAYOUT || col < MAX) && Narrow(col + 1, s[1..])
  }

  lemma {:induction false} NarrowName(col: nat, name: string, rest: string)
    requires name != "" && Free(name, LAYOUT)
    ensures Narrow(col, name + rest) <==> col + |name| <= MAX && Narrow(col + |name|, rest)
    decreases |name|
  {
    var all := name + rest;
    assert all[0] == name[0] && all[1..] == name[1..] + rest;
    if |name| == 1 {
      assert all[1..] == rest;
    } else {
      NarrowName(col + 1, name[1..], rest);
    }
  }

  lemma {:induction false} NarrowBlanks(col: nat, p: string, rest: string)
    requires forall i :: 0 <= i < |p| ==> p[i] == ' ' || p[i] == ','
    ensures Narrow(col, p + rest) == Narrow(col + |p|, rest)
    decreases |p|
  {
    if p == "" {
      assert p + rest == rest;
    } else {
      var all := p + rest;
      assert all[0] == p[0] && all[1..] == p[1..] + rest;
      NarrowBlanks(col + 1, p[1..], rest);
    }
  }

  lemma {:induction false} NarrowHead(col: nat, wrap: bool, s: string)
    ensures Narrow(col, Before(wrap) + s) == Narrow(if wrap then INDENT else col, s)
  {
    if wrap {
      var all := "\n" + INDENT_STRING + s;
      assert all[1..] == INDENT_STRING + s;
      NarrowBlanks(0, INDENT_STRING, s);
    } else {
      assert "" + s == s;
    }
  }

  ghost predicate Short(names: seq<string>) { forall k :: 0 <= k < |names| ==> |names[k]| <= MAX - INDENT }

  lemma {:induction false} ShortHead(names: seq<string>)
    requires names != []
    ensures Short(names) <==> |names[0]| <= MAX - INDENT && Short(names[1..])
  {
    assert names == [names[0]] + names[1..];
  }

  lemma {:induction false} NarrowPiece(col: nat, wrap: bool, name: string, post: string, rest: string)
    requires name != "" && Free(name, LAYOUT) && forall i :: 0 <= i < |post| ==> post[i] == ' ' || post[i] == ','
    ensures var end := (if wrap then INDENT else col) + |name|;
      Narrow(col, Before(wrap) + name + post + rest) <==> end <= MAX && Narrow(end + |post|, rest)
  {
    var at := if wrap then INDENT else col;
    assert Before(wrap) + name + post + rest == Before(wrap) + (name + (post + rest));
    NarrowHead(col, wrap, name + (post + rest));
    NarrowName(at, name, post + rest);
    NarrowBlanks(at + |name|, post, rest);
  }

  /** The width the code keeps is never less than the column. */
  lemma {:induction false} LayoutIsNarrow(names: seq<string>, col: nat, width: nat)
    requires Readable(names, LAYOUT) && INDENT <= col <= width
    ensures Narrow(col, Layout(names, width, false)) <==> Short(names)
    decreases |names|
  {
    if names == [] {
      assert "\n"[1..] == "";
    } else {
      var name, more := names[0], names[1..];
      var wrap := Wraps(width, |name|, false);
      var at, next := if wrap then INDENT else col, (if wrap then INDENT else width) + |name| + 3;
      var post, rest := After(false, |names| == 1), Layout(more, next, false);
      NarrowPiece(col, wrap, name, post, rest);
      LayoutIsNarrow(more, at + |name| + |post|, next);
      ShortHead(names);
    }
  }

  /** Wrapped, no name ends past column 79 exactly when no name is longer than 75. */
  lemma {:induction false} WrappedFitsMargin(names: seq<string>)
    requires Readable(names, LAYOUT)
    ensures Narrow(0, Printed(names, false)) <==> Short(names)
  {
    NarrowBlanks(0, INDENT_STRING, Layout(names, INDENT, false));
    LayoutIsNarrow(names, INDENT, INDENT);
  }

  // ---------- building a list ----------

  /** Every name followed by a space. */
  function Joined(names: seq<string>): string
  {
    if names == [] then "" else names[0] + " " + Joined(names[1..])
  }

  lemma {:induction false} JoinedReadsBack(names: seq<string>)
    requires Readable(names, BLANK)
    ensures Tokens(Joined(names)) == names
  {
    if names != [] {
      JoinedReadsBack(names[1..]);
      assert "" + names[0] == names[0];
      NameBetween("", names[0], " ", Joined(names[1..]), BLANK);
    }
  }

  /** The list gives back its names exactly when they are nonempty and have no spaces. */
  lemma {:induction false} JoinedSplits(names: seq<string>)
    ensures Tokens(Joined(names)) == names <==> Readable(names, BLANK)
  {
    var s := Joined(names);
    if Readable(names, BLANK) {
      JoinedReadsBack(names);
    } else if Tokens(s) == names {
      forall k | 0 <= k < |names| ensures names[k] != "" && Free(names[k], BLANK) {
        TokensAreMaximal(s, names[k]);
      }
    }
  }

  lemma {:induction false} JoinedAppend(names: seq<string>, name: string)
    ensures Joined(names + [name]) == Joined(names) + name + " "
  {
    if names == [] {
      assert names + [name] == [name] && [name][1..] == [];
    } else {
      assert (names + [name])[1..] == names[1..] + [name];
      JoinedAppend(names[1..], name);
    }
  }

  /** strcpy(buffer + pos, name). */
  method Strcpy(buffer: array<char>, pos: nat, name: string)
    requires pos + |name| < buffer.Length
    modifies buffer
    ensures buffer[..pos] == old(buffer[..pos])
    ensures buffer[pos..pos + |name|] == name && buffer[pos + |name|] == '\0'
  {
    var i := 0;
    while i < |name|
      invariant 0 <= i <= |name|
      invariant buffer[..pos] == old(buffer[..pos])
      invariant buffer[pos..pos + i] == name[..i]
    {
      buffer[pos + i] := name[i];
      i := i + 1;
    }
    buffer[pos + |name|] := '\0';
  }

  lemma {:induction false} JoinedPrefix(names: seq<string>, i: nat)
    requires i < |names|
    ensures Joined(names[..i + 1]) == Joined(names[..i]) + names[i] + " "
    ensures |Joined(names[..i])| + |names[i]| + 1 <= |Joined(names)|
    decreases |names| - i
  {
    assert names[..i + 1] == names[..i] + [names[i]];
    JoinedAppend(names[..i], names[i]);
    if i + 1 < |names| {
      JoinedPrefix(names, i + 1);
    } else {
      assert names[..i + 1] == names;
    }
  }

  /** build_core_profile_extension_list: the names fill the buffer up to its last cell. */
  method BuildCoreProfileExtensionList(names: seq<string>) returns (buffer: array<char>)
    ensures fresh(buffer) && buffer[..] == Joined(names) + ['\0']
  {
    var totalLen := 0;
    var i := 0;
    while i < |names|
      invariant 0 <= i <= |names| && totalLen == |Joined(names[..i])|
    {
      JoinedPrefix(names, i);
      totalLen := totalLen + |names[i]| + 1;
      i := i + 1;
    }
    assert names[..i] == names;
    buffer := new char[totalLen + 1];
    var pos := 0;
    i := 0;
    while i < |names|
      invariant 0 <= i <= |names| && pos == |Joined(names[..i])| <= totalLen
      invariant buffer[..pos] == Joined(names[..i])
    {
      JoinedPrefix(names, i);
      Strcpy(buffer, pos, names[i]);
      assert buffer[..pos + |names[i]|] == buffer[..pos] + buffer[pos..pos + |names[i]|];
      pos := pos + |names[i]|;
      buffer[pos] := ' ';
      pos := pos + 1;
      i := i + 1;
    }
    assert names[..i] == names;
    buffer[pos] := '\0';
  }

  // ---------- searching a list ----------

  ghost predicate Occurs(s: string, ext: string, p: nat) { p + |ext| <= |s| && s[p..p + |ext|] == ext }

  datatype Hit = Miss | At(pos: nat)

  /** strstr(s + start, ext). */
  function Strstr(s: string, ext: string, start: nat): (h: Hit)
    ensures h.At? ==> start <= h.pos && Occurs(s, ext, h.pos) && forall q: nat :: start <= q < h.pos ==> !Occurs(s, ext, q)
    ensures h.Miss? ==> forall q: nat :: start <= q ==> !Occurs(s, ext, q)
    decreases |s| - start
  {
    if start + |ext| > |s| then Miss
    else if s[start..start + |ext|] == ext then At(start)
    else Strstr(s, ext, start + 1)
  }

  predicate EndsName(s: string, e: nat)
    requires e <= |s|
  {
    e == |s| || s[e] == ' '
  }

  /** The searches start at the multiples of the length of the name. */
  function Probe(s: string, ext: string, k: nat): Hit { Strstr(s, ext, k * |ext|) }

  ghost predicate Stops(s: string, ext: string, k: nat)
  {
    Probe(s, ext, k).At? && EndsName(s, Probe(s, ext, k).pos + |ext|)
  }

  /** Some search finds the name, with a space or the end of the list behind it. */
  ghost predicate Supported(ext: string, s: string) { exists k: nat :: Stops(s, ext, k) }

  datatype Answer = Yes | No | Spins

  /** extension_supported; Spins is its answer where its loop repeats without moving on. */
  method ExtensionSupported(ext: string, extensionsList: string) returns (r: Answer)
    ensures r.Spins? <==> ext == "" && extensionsList != "" && extensionsList[0] != ' '
    ensures ext != "" ==> (r.Yes? <==> Supported(ext, extensionsList))
  {
    var start := 0;
    ghost var k := 0;
    while true
      invariant start == k * |ext| && start <= |extensionsList|
      invariant ext == "" ==> start == 0
      invariant forall i: nat :: i < k ==> !Stops(extensionsList, ext, i)
      decreases |extensionsList| - start
    {
      var p := Strstr(extensionsList, ext, start);
      assert p == Probe(extensionsList, ext, k);
      if p.At? {
        var extLen := |ext|;
        if EndsName(extensionsList, p.pos + extLen) {
          assert Stops(extensionsList, ext, k);
          return Yes;
        } else if extLen == 0 {
          return Spins;
        } else {
          start := start + extLen;
          NextMultiple(k, extLen);
          k := k + 1;
        }
      } else {
        break;
      }
    }
    if ext != "" { NoLaterStop(ext, extensionsList, k); }
    return No;
  }

  lemma {:induction false} NextMultiple(k: nat, n: nat)
    ensures (k + 1) * n == k * n + n
  {
  }

  lemma {:induction false} NoLaterStop(ext: string, s: string, k: nat)
    requires Probe(s, ext, k).Miss?
    requires forall i: nat :: i < k ==> !Stops(s, ext, i)
    ensures !Supported(ext, s)
  {
    forall i: nat ensures !Stops(s, ext, i) {
      if i >= k {
        assert i * |ext| >= k * |ext| by { MoreTimes(i, k, |ext|); }
      }
    }
  }

  lemma {:induction false} MoreTimes(i: nat, k: nat, n: nat)
    requires i >= k
    ensures i * n >= k * n
  {
    assert i * n == k * n + (i - k) * n;
  }

  // ---------- what the search answers ----------

  /** An earlier occurrence, no farther back than the last multiple of the length, at which a search starts. */
  ghost predicate Hidden(s: string, ext: string, i: nat)
    requires ext != ""
  {
    exists p: nat :: i - i % |ext| <= p < i && Occurs(s, ext, p)
  }

  lemma {:induction false} LastMultiple(i: nat, k: nat, n: nat)
    requires n > 0 && k * n <= i
    ensures k * n <= i - i % n == i / n * n <= i
  {
    var q := i / n;
    assert i == q * n + i % n;
    if k > q {
      MoreTimes(k, q + 1, n);
      NextMultiple(q, n);
    } else {
      MoreTimes(q, k, n);
    }
  }

  /** Any name but the empty one is found exactly when it stands somewhere at the end of a name of the list,
      not hidden by an earlier occurrence. */
  lemma {:induction false} SupportedMeansUnhidden(ext: string, s: string)
    requires ext != ""
    ensures Supported(ext, s) <==> exists i: nat :: Occurs(s, ext, i) && EndsName(s, i + |ext|) && !Hidden(s, ext, i)
  {
    if Supported(ext, s) {
      var k: nat :| Stops(s, ext, k);
      var i := Probe(s, ext, k).pos;
      LastMultiple(i, k, |ext|);
      assert Occurs(s, ext, i) && !Hidden(s, ext, i);
    }
    if i: nat :| Occurs(s, ext, i) && EndsName(s, i + |ext|) && !Hidden(s, ext, i) {
      LastMultiple(i, 0, |ext|);
      var k := i / |ext|;
      assert Probe(s, ext, k) == At(i);
      assert Stops(s, ext, k);
    }
  }

  lemma {:induction false} NotAcrossSpace(s: string, ext: string, p: nat, i: nat)
    requires Free(ext, BLANK) && p < i < p + |ext| && i <= |s| && s[i - 1] == ' '
    ensures !Occurs(s, ext, p)
  {
    if Occurs(s, ext, p) { FreeAt(s, p, p + |ext|, i - 1); }
  }

  /** A token of the list is never missed. */
  lemma {:induction false} TokenIsSupported(ext: string, s: string)
    requires ext in Tokens(s)
    ensures Supported(ext, s)
  {
    TokensAreMaximal(s, ext);
    var i: nat :| TokenAt(s, i, ext);
    if p: nat :| i - i % |ext| <= p < i && Occurs(s, ext, p) {
      NotAcrossSpace(s, ext, p, i);
    }
    assert Occurs(s, ext, i) && EndsName(s, i + |ext|) && !Hidden(s, ext, i);
    SupportedMeansUnhidden(ext, s);
  }

  ghost predicate EndsIn(t: string, ext: string) { |ext| <= |t| && t[|t| - |ext|..] == ext }

  /** The start of the word an occurrence lies in. */
  lemma {:induction false} WordStart(s: string, p: nat, e: nat) returns (i: nat)
    requires p <= e <= |s| && Free(s[p..e], BLANK)
    ensures i <= p && Free(s[i..e], BLANK) && (i == 0 || s[i - 1] == ' ')
    decreases p
  {
    i := p;
    if p > 0 && s[p - 1] != ' ' {
      assert s[p - 1..e] == [s[p - 1]] + s[p..e];
      i := WordStart(s, p - 1, e);
    }
  }

  /** An occurrence at the end of a name is the end of a token. */
  lemma {:induction false} TokenAround(s: string, ext: string, p: nat) returns (a: nat, t: string)
    requires ext != "" && Free(ext, BLANK) && Occurs(s, ext, p) && EndsName(s, p + |ext|)
    ensures TokenAt(s, a, t) && EndsIn(t, ext) && a + |t| - |ext| == p
  {
    a := WordStart(s, p, p + |ext|);
    t := s[a..p + |ext|];
    assert t[|t| - |ext|..] == s[p..p + |ext|];
  }

  /** Only the end of a token is ever found. */
  lemma {:induction false} SupportedIsSuffix(ext: string, s: string)
    requires ext != "" && Free(ext, BLANK) && Supported(ext, s)
    ensures exists t :: t in Tokens(s) && EndsIn(t, ext)
  {
    var k: nat :| Stops(s, ext, k);
    var a, t := TokenAround(s, ext, Probe(s, ext, k).pos);
    TokensAreMaximal(s, t);
  }

  /** No proper prefix of the name is also its suffix. */
  ghost predicate Unbordered(ext: string)
  {
    forall n :: 0 < n < |ext| ==> ext[..n] != ext[|ext| - n..]
  }

  lemma {:induction false} OverlapIsBorder(s: string, ext: string, p: nat, i: nat, n: nat)
    requires Occurs(s, ext, p) && Occurs(s, ext, i) && p < i && i + n == p + |ext|
    ensures ext[..n] == ext[|ext| - n..]
  {
    assert s[i..i + |ext|][..n] == s[i..p + |ext|];
    assert s[p..p + |ext|][|ext| - n..] == s[i..p + |ext|];
  }

  lemma {:induction false} SuffixIsSupported(ext: string, s: string, t: string)
    requires ext != "" && Unbordered(ext) && t in Tokens(s) && EndsIn(t, ext)
    ensures Supported(ext, s)
  {
    TokensAreMaximal(s, t);
    var a: nat :| TokenAt(s, a, t);
    TokenEndOccurs(s, a, t, ext);
    UnborderedIsUnhidden(s, ext, a + |t| - |ext|);
    SupportedMeansUnhidden(ext, s);
  }

  /** For a name that does not overlap itself: supported exactly when some token ends in the name. */
  lemma {:induction false} SupportedMeansSuffix(ext: string, s: string)
    requires ext != "" && Free(ext, BLANK) && Unbordered(ext)
    ensures Supported(ext, s) <==> exists t :: t in Tokens(s) && EndsIn(t, ext)
  {
    if Supported(ext, s) { SupportedIsSuffix(ext, s); }
    if t :| t in Tokens(s) && EndsIn(t, ext) { SuffixIsSupported(ext, s, t); }
  }

  lemma {:induction false} WholeSuffix(t: string, ext: string)
    requires EndsIn(t, ext) && |t| == |ext|
    ensures t == ext
  {
    assert t[0..] == t;
  }

  /** Any name is answered rightly when it is in the list or no longer name of the list ends in it. */
  lemma {:induction false} RightAnswer(ext: string, s: string)
    requires ext != "" && Free(ext, BLANK)
    requires ext in Tokens(s) || forall t :: t in Tokens(s) && |t| > |ext| ==> !EndsIn(t, ext)
    ensures Supported(ext, s) <==> ext in Tokens(s)
  {
    if ext in Tokens(s) {
      TokenIsSupported(ext, s);
    } else {
      forall t | t in Tokens(s) ensures !EndsIn(t, ext) {
        if EndsIn(t, ext) && |t| == |ext| { WholeSuffix(t, ext); }
      }
      if Supported(ext, s) { SupportedIsSuffix(ext, s); }
    }
  }

  /** The token t at a, longer than the name, ends in the name where the search can find it. */
  ghost predicate EndsUnhidden(s: string, a: nat, t: string, ext: string)
    requires ext != ""
  {
    TokenAt(s, a, t) && |t| > |ext| && EndsIn(t, ext) && !Hidden(s, ext, a + |t| - |ext|)
  }

  /** A name without spaces is answered rightly exactly when it is in the list or no longer name of the list
      ends in it unhidden. */
  lemma {:induction false} AnswersMembership(ext: string, s: string)
    requires ext != "" && Free(ext, BLANK)
    ensures (Supported(ext, s) <==> ext in Tokens(s))
       <==> (ext in Tokens(s) || forall a: nat, t :: !EndsUnhidden(s, a, t, ext))
  {
    if ext in Tokens(s) {
      TokenIsSupported(ext, s);
    } else {
      SupportedMeansUnhidden(ext, s);
      if i: nat :| Occurs(s, ext, i) && EndsName(s, i + |ext|) && !Hidden(s, ext, i) {
        var a, t := FoundInToken(ext, s, i);
      }
      if a: nat, t :| EndsUnhidden(s, a, t, ext) { TokenEndOccurs(s, a, t, ext); }
    }
  }

  lemma {:induction false} TokenEndOccurs(s: string, a: nat, t: string, ext: string)
    requires TokenAt(s, a, t) && EndsIn(t, ext)
    ensures Occurs(s, ext, a + |t| - |ext|) && EndsName(s, a + |t|)
  {
    var i := a + |t| - |ext|;
    assert s[i..i + |ext|] == s[a..a + |t|][|t| - |ext|..];
  }

  /** Where a name that is not in the list is found. */
  lemma {:induction false} FoundInToken(ext: string, s: string, i: nat) returns (a: nat, t: string)
    requires ext != "" && Free(ext, BLANK) && ext !in Tokens(s)
    requires Occurs(s, ext, i) && EndsName(s, i + |ext|) && !Hidden(s, ext, i)
    ensures EndsUnhidden(s, a, t, ext)
  {
    a, t := TokenAround(s, ext, i);
    TokensAreMaximal(s, t);
    if |t| == |ext| { WholeSuffix(t, ext); }
  }

  lemma {:induction false} UnborderedIsUnhidden(s: string, ext: string, i: nat)
    requires ext != "" && Unbordered(ext) && Occurs(s, ext, i)
    ensures !Hidden(s, ext, i)
  {
    if p: nat :| i - i % |ext| <= p < i && Occurs(s, ext, p) { OverlapIsBorder(s, ext, p, i, p + |ext| - i); }
  }

  /** For a name that does not overlap itself: when it is in the list or no longer name of the list ends in it. */
  lemma {:induction false} UnborderedMembership(ext: string, s: string)
    requires ext != "" && Free(ext, BLANK) && Unbordered(ext)
    ensures (Supported(ext, s) <==> ext in Tokens(s))
       <==> (ext in Tokens(s) || forall t :: t in Tokens(s) && |t| > |ext| ==> !EndsIn(t, ext))
  {
    if ext in Tokens(s) || forall t :: t in Tokens(s) && |t| > |ext| ==> !EndsIn(t, ext) {
      RightAnswer(ext, s);
    } else {
      var t :| t in Tokens(s) && |t| > |ext| && EndsIn(t, ext);
      SuffixIsSupported(ext, s, t);
    }
  }

  /** A name that is only the end of a listed one is answered yes. */
  lemma {:induction false} SuffixIsAccepted()
    ensures Supported("ab", "cab") && "ab" !in Tokens("cab")
  {
    var s := "cab";
    assert s[1..3] == "ab" && Occurs(s, "ab", 1) && s[0..2] == "ca";
    assert Probe(s, "ab", 0) == At(1) && Stops(s, "ab", 0);
    TokensAreMaximal(s, "ab");
    forall i: nat ensures !TokenAt(s, i, "ab") {
      if i + 2 <= 3 { assert s[i..i + 2][0] == s[i]; }
    }
  }

  /** A name that overlaps itself can be skipped over where a longer one ends in it. */
  lemma {:induction false} OverlapIsSkipped()
    ensures !Supported("aa", "baaaa") && EndsIn("baaaa", "aa")
  {
    var s, ext := "baaaa", "aa";
    assert s[0..2] == "ba" && s[1..3] == "aa" && s[2..4] == "aa" && s[3..5] == "aa";
    assert Probe(s, ext, 0) == At(1) && !Stops(s, ext, 0);
    assert Probe(s, ext, 1) == At(2) && !Stops(s, ext, 1);
    assert Probe(s, ext, 2) == Miss;
    NoLaterStop(ext, s, 2);
  }
}
