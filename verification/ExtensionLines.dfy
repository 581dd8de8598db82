/**
What the printed extension list looks like: one name on a line, or lines that are filled one after the
other as far as the names go.
*/
module ExtensionLines {
  import opened ExtensionList

  // ---------- one name on a line ----------

  /** Every name on a line of its own, indented, and an empty line at the end. */
  ghost function Column(names: seq<string>): string
  {
    if names == [] then "    \n" else "    " + names[0] + "\n" + Column(names[1..])
  }

  lemma {:induction false} PrintsColumn(names: seq<string>)
    ensures Printed(names, true) == Column(names)
  {
    if names != [] {
      LayoutStep(names, INDENT, true, INDENT);
      PrintsColumn(names[1..]);
      ColumnStep(names[0], Layout(names, INDENT, true), Layout(names[1..], INDENT, true));
    }
  }

  lemma {:induction false} ColumnStep(name: string, all: string, rest: string)
    requires all == "" + name + ("\n" + INDENT_STRING) + rest
    ensures INDENT_STRING + all == "    " + name + "\n" + (INDENT_STRING + rest)
  {
  }

  // ---------- filled lines ----------

  /** The width of an indented line of names, each with three places for what separates it from the next. */
  ghost function Room(line: seq<string>): nat
  {
    if line == [] then 4 else Room(line[..|line| - 1]) + |line[|line| - 1]| + 3
  }

  /** Names from place `from` on reach at most column 79. */
  ghost predicate Fits(line: seq<string>, from: nat)
  {
    forall k :: from <= k < |line| ==> Room(line[..k]) + |line[k]| <= 79
  }

  /** Lines on which all names fit, but for a first name, and which are filled: the first name of the next line would
      not have fitted. On the first line, which may be empty, the first name fits as well. */
  ghost predicate Filled(lines: seq<seq<string>>, from: nat)
    decreases lines
  {
    && lines != [] && Fits(lines[0], from)
    && (|lines| > 1 ==> lines[1] != [] && Room(lines[0]) + |lines[1][0]| > 79 && Filled(lines[1..], 1))
  }

  ghost function Flatten(lines: seq<seq<string>>): seq<string>
  {
    if lines == [] then [] else lines[0] + Flatten(lines[1..])
  }

  /** The names of a line, a comma and a space behind each. */
  ghost function Listed(line: seq<string>): string
  {
    if line == [] then "" else Listed(line[..|line| - 1]) + line[|line| - 1] + ", "
  }

  /** Indented lines, with a comma behind every name but the last of all. */
  ghost function Text(lines: seq<seq<string>>): string
  {
    if lines == [] then ""
    else if |lines| > 1 then "    " + Listed(lines[0]) + "\n" + Text(lines[1..])
    else if lines[0] == [] then "    "
    else "    " + Listed(lines[0][..|lines[0]| - 1]) + lines[0][|lines[0]| - 1]
  }

  /** The lines that result for a line begun and the names to come. */
  ghost function Lines(line: seq<string>, names: seq<string>): (lines: seq<seq<string>>)
    ensures lines != []
    decreases |names|
  {
    if names == [] then [line]
    else if Room(line) + |names[0]| > 79 then [line] + Lines([names[0]], names[1..])
    else Lines(line + [names[0]], names[1..])
  }

  lemma {:induction false} LineGrows(line: seq<string>, name: string)
    ensures Room(line + [name]) == Room(line) + |name| + 3 && Listed(line + [name]) == Listed(line) + name + ", "
  {
    assert (line + [name])[..|line|] == line;
  }

  lemma {:induction false} LinesFlatten(line: seq<string>, names: seq<string>)
    ensures Flatten(Lines(line, names)) == line + names
    decreases |names|
  {
    if names == [] {
      assert Flatten([line]) == line + Flatten([]);
    } else if Room(line) + |names[0]| > 79 {
      LinesFlatten([names[0]], names[1..]);
      assert ([line] + Lines([names[0]], names[1..]))[1..] == Lines([names[0]], names[1..]);
      assert [names[0]] + names[1..] == names;
    } else {
      LinesFlatten(line + [names[0]], names[1..]);
      assert line + [names[0]] + names[1..] == line + names;
    }
  }

  lemma {:induction false} LinesStart(line: seq<string>, names: seq<string>)
    ensures line <= Lines(line, names)[0]
    decreases |names|
  {
    if names != [] && Room(line) + |names[0]| <= 79 { LinesStart(line + [names[0]], names[1..]); }
  }

  lemma {:induction false} FitsMore(line: seq<string>, name: string, from: nat)
    requires Fits(line, from) && Room(line) + |name| <= 79
    ensures Fits(line + [name], from)
  {
    var more := line + [name];
    forall k | from <= k < |more| ensures Room(more[..k]) + |more[k]| <= 79 {
      assert k < |line| ==> more[..k] == line[..k];
      assert k == |line| ==> more[..k] == line;
    }
  }

  lemma {:induction false} LinesAreFilled(line: seq<string>, names: seq<string>, from: nat)
    requires Fits(line, from)
    ensures Filled(Lines(line, names), from)
    decreases |names|
  {
    if names != [] {
      if Room(line) + |names[0]| > 79 {
        LinesAreFilled([names[0]], names[1..], 1);
        LinesStart([names[0]], names[1..]);
        assert ([line] + Lines([names[0]], names[1..]))[1..] == Lines([names[0]], names[1..]);
      } else {
        FitsMore(line, names[0], from);
        LinesAreFilled(line + [names[0]], names[1..], from);
      }
    }
  }

  lemma {:induction false} LastName(line: seq<string>, name: string)
    ensures Text([line + [name]]) == "    " + Listed(line) + name
  {
    assert (line + [name])[..|line|] == line;
  }

  lemma {:induction false} NextLine(line: seq<string>, lines: seq<seq<string>>)
    requires lines != []
    ensures Text([line] + lines) == "    " + Listed(line) + "\n" + Text(lines)
  {
    assert ([line] + lines)[1..] == lines;
  }

  /** What is printed behind a line begun completes the text of its lines. */
  lemma {:induction false} LayoutIsText(line: seq<string>, names: seq<string>)
    requires names != []
    ensures "    " + Listed(line) + Layout(names, Room(line), false) == Text(Lines(line, names)) + "\n"
    decreases |names|
  {
    var name, rest := names[0], names[1..];
    var wrap := Wraps(Room(line), |name|, false);
    var begun := if wrap then [] else line;
    var next := Room(begun) + |name| + 3;
    LineGrows(begun, name);
    LayoutStep(names, Room(line), false, next);
    var shown := Layout(rest, next, false);
    assert names == [name] + rest;
    if rest == [] {
      LastLines(line, begun, name, wrap);
    } else {
      LayoutIsText(begun + [name], rest);
      MoreLines(line, begun, name, rest, wrap, shown);
    }
    Joins("    " + Listed(line), wrap, name, |names| == 1, shown);
    OneLast(name, names, rest);
  }

  lemma {:induction false} OneLast(name: string, names: seq<string>, rest: seq<string>)
    requires names == [name] + rest
    ensures |names| == 1 <==> rest == []
    ensures rest == [] ==> names == [name]
  {
  }

  lemma {:induction false} LastLines(line: seq<string>, begun: seq<string>, name: string, wrap: bool)
    requires wrap == (Room(line) + |name| > 79) && begun == if wrap then [] else line
    ensures (if wrap then "    " + Listed(line) + "\n" + "    " else "    " + Listed(line)) + name == Text(Lines(line, [name]))
  {
    assert [name][1..] == [] && [] + [name] == [name];
    LastName(begun, name);
    if wrap {
      NextLine(line, [[name]]);
    }
  }

  lemma {:induction false} MoreLines(line: seq<string>, begun: seq<string>, name: string, rest: seq<string>, wrap: bool, shown: string)
    requires wrap == (Room(line) + |name| > 79) && begun == (if wrap then [] else line) && rest != []
    requires "    " + Listed(begun + [name]) + shown == Text(Lines(begun + [name], rest)) + "\n"
    ensures (if wrap then "    " + Listed(line) + "\n" + "    " else "    " + Listed(line)) + name + ", " + shown
         == Text(Lines(line, [name] + rest)) + "\n"
  {
    LinesStep(line, name, rest);
    LineGrows(begun, name);
    if wrap {
      assert [] + [name] == [name];
      NextLine(line, Lines([name], rest));
      Behind("    " + Listed(line) + "\n", name, shown, Text(Lines([name], rest)));
    } else {
      Onto(Listed(line), name, shown, Text(Lines(line + [name], rest)));
    }
  }

  lemma {:induction false} LinesStep(line: seq<string>, name: string, rest: seq<string>)
    ensures Lines(line, [name] + rest)
         == if Room(line) + |name| > 79 then [line] + Lines([name], rest) else Lines(line + [name], rest)
  {
    assert ([name] + rest)[1..] == rest;
  }

  lemma {:induction false} Onto(listed: string, name: string, shown: string, text: string)
    requires "    " + (listed + name + ", ") + shown == text + "\n"
    ensures "    " + listed + name + ", " + shown == text + "\n"
  {
    assert "    " + (listed + name + ", ") == "    " + listed + name + ", ";
  }

  lemma {:induction false} Behind(front: string, name: string, shown: string, text: string)
    requires "    " + ("" + name + ", ") + shown == text + "\n"
    ensures front + "    " + name + ", " + shown == front + text + "\n"
  {
    assert front + "    " + name + ", " + shown == front + ("    " + ("" + name + ", ") + shown);
    assert front + (text + "\n") == front + text + "\n";
  }

  lemma {:induction false} Joins(begun: string, wrap: bool, name: string, last: bool, rest: string)
    ensures begun + (Before(wrap) + name + After(false, last) + rest)
         == (if wrap then begun + "\n" + "    " else begun) + name + (if last then "" else ", ") + rest
  {
  }

  /** Wrapped, the names stand in their order on lines that are filled as far as they go. */
  lemma {:induction false} PrintsFilledLines(names: seq<string>) returns (lines: seq<seq<string>>)
    requires names != []
    ensures Flatten(lines) == names && Filled(lines, 0) && Printed(names, false) == Text(lines) + "\n"
  {
    lines := Lines([], names);
    LinesFlatten([], names);
    assert [] + names == names;
    LinesAreFilled([], names, 0);
    LayoutIsText([], names);
  }
}
