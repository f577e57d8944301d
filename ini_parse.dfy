/** `DynamicInventory._parse_ini_style_inventory`: the reader for an
    environment's `hosts.toml`, which despite its name is an INI-style list of
    `[group]` headers each followed by host lines. Every non-blank,
    non-comment, non-header line is kept whole (after stripping) as one host
    entry of the group whose header came last; lines before any header, or
    after an empty `[]` header, go to the group `all`. */
module IniParse {
  import opened Dicts
  import opened Text
  import opened Values

  /** What the reader has built after some lines: the groups in the order
      they were first seen, and the group of the last header. */
  datatype ParseState = ParseState(groups: Dict<string, seq<string>>, current: Option<string>)

  /** A line the reader passes over: blank, or a `#` comment, once stripped. */
  predicate Skipped(line: string)
  {
    var l := Strip(line);
    l == [] || StartsWith(l, "#")
  }

  /** A stripped line of the form `[name]`: it starts with `[` and ends with
      `]` (a one-character line cannot do both). */
  predicate IsHeader(l: string)
  {
    |l| >= 2 && l[0] == '[' && l[|l| - 1] == ']'
  }

  function HeaderName(l: string): string
    requires IsHeader(l)
  {
    l[1..|l| - 1]
  }

  predicate IsHeaderLine(line: string)
  {
    !Skipped(line) && IsHeader(Strip(line))
  }

  predicate IsHostLine(line: string)
  {
    !Skipped(line) && !IsHeader(Strip(line))
  }

  /** The group a host line is added to: the current group, or `all` when
      there is none or its name is empty (Python's falsy `current_group`). */
  function Target(current: Option<string>): string
  {
    if current.None? || current.value == "" then "all" else current.value
  }

  /** One iteration of the reader's loop. */
  function Step(st: ParseState, line: string): ParseState
  {
    var l := Strip(line);
    if l == [] || StartsWith(l, "#") then st
    else if IsHeader(l) then
      var g := HeaderName(l);
      ParseState(if g in Keys(st.groups) then st.groups else Put(st.groups, g, []), Some(g))
    else
      var t := Target(st.current);
      var gs := if t in Keys(st.groups) then st.groups else Put(st.groups, t, []);
      ParseState(Put(gs, t, Get(gs, t) + [l]), st.current)
  }

  /** The reader's state after the given lines. */
  function Parse(lines: seq<string>): ParseState
  {
    if lines == [] then ParseState([], None)
    else Step(Parse(lines[..|lines| - 1]), lines[|lines| - 1])
  }

  /** The reader's loop. `file` is `None` when the file cannot be read, which
      the source catches and answers with an empty dict. */
  method ParseIniStyleInventory(file: Option<seq<string>>) returns (groups: Dict<string, seq<string>>)
    ensures file.None? ==> groups == []
    ensures file.Some? ==> groups == Parse(file.value).groups
  {
    groups := [];
    if file.None? {
      return;
    }
    var lines := file.value;
    var current: Option<string> := None;
    var i := 0;
    while i < |lines|
      invariant 0 <= i <= |lines|
      invariant ParseState(groups, current) == Parse(lines[..i])
      invariant current.Some? ==> current.value in Keys(groups)
    {
      ParsePrefixStep(lines, i);
      groups, current := ReadLine(groups, current, lines[i]);
      i := i + 1;
    }
    assert lines[..i] == lines;
  }

  /** The body of the reader's loop, for one line. */
  method ReadLine(groups: Dict<string, seq<string>>, current: Option<string>, raw: string)
    returns (groups': Dict<string, seq<string>>, current': Option<string>)
    requires current.Some? ==> current.value in Keys(groups)
    ensures ParseState(groups', current') == Step(ParseState(groups, current), raw)
    ensures current'.Some? ==> current'.value in Keys(groups')
  {
    groups', current' := groups, current;
    var line := Strip(raw);
    if line == [] || StartsWith(line, "#") {
    } else if IsHeader(line) {
      var g := line[1..|line| - 1];
      StepHeader(ParseState(groups, current), raw);
      current' := Some(g);
      if g !in Keys(groups) {
        groups' := Put(groups, g, []);
      }
    } else if current.Some? && current.value != "" {
      StepIntoKnownGroup(ParseState(groups, current), raw);
      groups' := Put(groups, current.value, Get(groups, current.value) + [line]);
    } else {
      StepIntoAll(ParseState(groups, current), raw);
      if "all" !in Keys(groups) {
        groups' := Put(groups, "all", []);
      }
      groups' := Put(groups', "all", Get(groups', "all") + [line]);
    }
  }

  /** A header makes its group current, adding it empty if it is new. */
  lemma StepHeader(st: ParseState, line: string)
    requires IsHeaderLine(line)
    ensures var g := HeaderName(Strip(line));
      Step(st, line) == ParseState(if g in Keys(st.groups) then st.groups else Put(st.groups, g, []), Some(g))
  {
  }

  /** A host line with no usable current group goes to `all`. */
  lemma StepIntoAll(st: ParseState, line: string)
    requires IsHostLine(line) && Target(st.current) == "all"
    ensures var gs := if "all" in Keys(st.groups) then st.groups else Put(st.groups, "all", []);
      Step(st, line) == ParseState(Put(gs, "all", Get(gs, "all") + [Strip(line)]), st.current)
  {
  }

  /** A host line goes to its target group, which is added if new. */
  lemma StepHost(st: ParseState, line: string)
    requires IsHostLine(line)
    ensures var t := Target(st.current);
      var gs := if t in Keys(st.groups) then st.groups else Put(st.groups, t, []);
      Step(st, line) == ParseState(Put(gs, t, Get(gs, t) + [Strip(line)]), st.current)
  {
  }

  /** A host line whose target group already exists is appended to it. */
  lemma StepIntoKnownGroup(st: ParseState, line: string)
    requires IsHostLine(line) && Target(st.current) in Keys(st.groups)
    ensures var t := Target(st.current);
      Step(st, line) == ParseState(Put(st.groups, t, Get(st.groups, t) + [Strip(line)]), st.current)
  {
  }

  lemma ParsePrefixStep(lines: seq<string>, i: nat)
    requires i < |lines|
    ensures Parse(lines[..i + 1]) == Step(Parse(lines[..i]), lines[i])
  {
    assert lines[..i + 1][..i] == lines[..i];
  }

  // ---------------------------------------------------------------------
  // Blank lines and comments

  /** The lines that are not blank and not comments, in order. */
  function Significant(lines: seq<string>): seq<string>
  {
    if lines == [] then []
    else
      var last := lines[|lines| - 1];
      Significant(lines[..|lines| - 1]) + (if Skipped(last) then [] else [last])
  }

  lemma SkippedStep(st: ParseState, line: string)
    requires Skipped(line)
    ensures Step(st, line) == st
  {
  }

  /** Blank lines and comments never change what the reader builds. */
  lemma {:induction false} ParseIgnoresSkipped(lines: seq<string>)
    ensures Parse(Significant(lines)) == Parse(lines)
  {
    if lines != [] {
      var init, last := lines[..|lines| - 1], lines[|lines| - 1];
      ParseIgnoresSkipped(init);
      assert Parse(lines) == Step(Parse(init), last);
      if Skipped(last) {
        assert Significant(lines) == Significant(init);
        SkippedStep(Parse(init), last);
      } else {
        var s := Significant(init) + [last];
        assert Significant(lines) == s;
        assert s[..|s| - 1] == Significant(init);
        assert Parse(s) == Step(Parse(Significant(init)), last);
      }
    }
  }

  /** Inserting a blank or comment line anywhere changes nothing. */
  lemma {:induction false} SkippedLineAnywhere(before: seq<string>, line: string, after: seq<string>)
    requires Skipped(line)
    ensures Parse(before + [line] + after) == Parse(before + after)
    decreases |after|
  {
    if after == [] {
      assert before + [line] + after == before + [line] && before + after == before;
      ParseSnoc(before, line);
      SkippedStep(Parse(before), line);
    } else {
      var after', last := after[..|after| - 1], after[|after| - 1];
      SkippedLineAnywhere(before, line, after');
      assert before + [line] + after == (before + [line] + after') + [last];
      assert before + after == (before + after') + [last];
      ParseSnoc(before + [line] + after', last);
      ParseSnoc(before + after', last);
    }
  }

  lemma ParseSnoc(lines: seq<string>, line: string)
    ensures Parse(lines + [line]) == Step(Parse(lines), line)
  {
    assert (lines + [line])[..|lines|] == lines;
  }

  // ---------------------------------------------------------------------
  // Groups only grow

  /** Every group of `a` is in `b`, with `a`'s hosts as a prefix of `b`'s. */
  ghost predicate Extends(a: Dict<string, seq<string>>, b: Dict<string, seq<string>>)
  {
    forall g :: g in Keys(a) ==> g in Keys(b) && Get(a, g) <= Get(b, g)
  }

  lemma StepExtends(st: ParseState, line: string)
    ensures Extends(st.groups, Step(st, line).groups)
  {
  }

  /** Reading more lines never drops a group or a host already read: a
      repeated header reopens its group without emptying it. */
  lemma {:induction false} ParseOnlyGrows(lines: seq<string>, more: seq<string>)
    ensures Extends(Parse(lines).groups, Parse(lines + more).groups)
    decreases |more|
  {
    if more != [] {
      var more' := more[..|more| - 1];
      ParseOnlyGrows(lines, more');
      assert (lines + more)[..|lines + more| - 1] == lines + more';
      StepExtends(Parse(lines + more'), more[|more| - 1]);
    } else {
      assert lines + more == lines;
    }
  }

  // ---------------------------------------------------------------------
  // What every group holds, stated line by line

  /** The group of the last header among the lines, if any. */
  function CurrentAfter(lines: seq<string>): Option<string>
  {
    if lines == [] then None
    else
      var last := lines[|lines| - 1];
      if IsHeaderLine(last) then Some(HeaderName(Strip(last)))
      else CurrentAfter(lines[..|lines| - 1])
  }

  /** The stripped host lines whose governing group is `g`, in file order. */
  function Members(lines: seq<string>, g: string): seq<string>
  {
    if lines == [] then []
    else
      var init, last := lines[..|lines| - 1], lines[|lines| - 1];
      Members(init, g) + (if IsHostLine(last) && Target(CurrentAfter(init)) == g then [Strip(last)] else [])
  }

  /** `g` is named by a header, or receives a host line. */
  predicate Declared(lines: seq<string>, g: string)
  {
    if lines == [] then false
    else
      var init, last := lines[..|lines| - 1], lines[|lines| - 1];
      Declared(init, g)
      || (IsHeaderLine(last) && HeaderName(Strip(last)) == g)
      || (IsHostLine(last) && Target(CurrentAfter(init)) == g)
  }

  /** The reader builds exactly this: a group for every header name and for
      `all` when a host line falls there, each group's list holding its host
      lines in file order, and no group twice. */
  lemma ParseCharacterised(lines: seq<string>)
    ensures Parse(lines).current == CurrentAfter(lines)
    ensures Unique(Parse(lines).groups)
    ensures forall g :: g in Keys(Parse(lines).groups) <==> Declared(lines, g)
    ensures forall g :: GetOr(Parse(lines).groups, g, []) == Members(lines, g)
  {
    ParseCurrent(lines);
    ParseUnique(lines);
    ParseKeys(lines);
    ParseMembers(lines);
  }

  lemma {:induction false} ParseCurrent(lines: seq<string>)
    ensures Parse(lines).current == CurrentAfter(lines)
  {
    if lines != [] {
      ParseCurrent(lines[..|lines| - 1]);
    }
  }

  lemma {:induction false} ParseUnique(lines: seq<string>)
    ensures Unique(Parse(lines).groups)
  {
    if lines != [] {
      ParseUnique(lines[..|lines| - 1]);
      StepKeepsUnique(Parse(lines[..|lines| - 1]), lines[|lines| - 1]);
    }
  }

  lemma StepKeepsUnique(st: ParseState, line: string)
    requires Unique(st.groups)
    ensures Unique(Step(st, line).groups)
  {
    var l := Strip(line);
    if l == [] || StartsWith(l, "#") {
    } else if IsHeader(l) {
      PutKeepsUnique(st.groups, HeaderName(l), []);
    } else {
      var t := Target(st.current);
      PutKeepsUnique(st.groups, t, []);
      var gs := if t in Keys(st.groups) then st.groups else Put(st.groups, t, []);
      PutKeepsUnique(gs, t, Get(gs, t) + [l]);
    }
  }

  lemma {:induction false} ParseKeys(lines: seq<string>)
    ensures forall g :: g in Keys(Parse(lines).groups) <==> Declared(lines, g)
  {
    if lines != [] {
      ParseKeys(lines[..|lines| - 1]);
      ParseCurrent(lines[..|lines| - 1]);
      KeysStep(lines, Parse(lines[..|lines| - 1]));
    }
  }

  lemma KeysStep(lines: seq<string>, st: ParseState)
    requires lines != [] && st.current == CurrentAfter(lines[..|lines| - 1])
    requires forall g :: g in Keys(st.groups) <==> Declared(lines[..|lines| - 1], g)
    ensures forall g :: g in Keys(Step(st, lines[|lines| - 1]).groups) <==> Declared(lines, g)
  {
    var last := lines[|lines| - 1];
    if Skipped(last) {
      SkippedStep(st, last);
    } else if IsHeader(Strip(last)) {
      KeysHeader(lines, st);
    } else {
      KeysHost(lines, st);
    }
  }

  lemma KeysHeader(lines: seq<string>, st: ParseState)
    requires lines != [] && IsHeaderLine(lines[|lines| - 1])
    requires forall g :: g in Keys(st.groups) <==> Declared(lines[..|lines| - 1], g)
    ensures forall g :: g in Keys(Step(st, lines[|lines| - 1]).groups) <==> Declared(lines, g)
  {
    forall g ensures g in Keys(Step(st, lines[|lines| - 1]).groups) <==> Declared(lines, g) {
      KeysHeaderAt(lines, st, g);
    }
  }

  lemma KeysHeaderAt(lines: seq<string>, st: ParseState, g: string)
    requires lines != [] && IsHeaderLine(lines[|lines| - 1])
    requires g in Keys(st.groups) <==> Declared(lines[..|lines| - 1], g)
    ensures g in Keys(Step(st, lines[|lines| - 1]).groups) <==> Declared(lines, g)
  {
    var last := lines[|lines| - 1];
    var name := HeaderName(Strip(last));
    StepHeader(st, last);
    var groups := OpenGroup(st.groups, name);
    assert Declared(lines, g) <==> Declared(lines[..|lines| - 1], g) || g == name;
  }

  lemma KeysHost(lines: seq<string>, st: ParseState)
    requires lines != [] && IsHostLine(lines[|lines| - 1]) && st.current == CurrentAfter(lines[..|lines| - 1])
    requires forall g :: g in Keys(st.groups) <==> Declared(lines[..|lines| - 1], g)
    ensures forall g :: g in Keys(Step(st, lines[|lines| - 1]).groups) <==> Declared(lines, g)
  {
    forall g ensures g in Keys(Step(st, lines[|lines| - 1]).groups) <==> Declared(lines, g) {
      KeysHostAt(lines, st, g);
    }
  }

  lemma KeysHostAt(lines: seq<string>, st: ParseState, g: string)
    requires lines != [] && IsHostLine(lines[|lines| - 1]) && st.current == CurrentAfter(lines[..|lines| - 1])
    requires g in Keys(st.groups) <==> Declared(lines[..|lines| - 1], g)
    ensures g in Keys(Step(st, lines[|lines| - 1]).groups) <==> Declared(lines, g)
  {
    var last := lines[|lines| - 1];
    var t := Target(st.current);
    StepHost(st, last);
    var groups := AppendTo(st.groups, t, Strip(last));
    DeclaredByHost(lines, g);
  }

  /** A host line declares exactly its target group. */
  lemma DeclaredByHost(lines: seq<string>, g: string)
    requires lines != [] && IsHostLine(lines[|lines| - 1])
    ensures Declared(lines, g) <==> Declared(lines[..|lines| - 1], g) || g == Target(CurrentAfter(lines[..|lines| - 1]))
  {
    assert !IsHeaderLine(lines[|lines| - 1]);
  }

  lemma {:induction false} ParseMembers(lines: seq<string>)
    ensures forall g :: GetOr(Parse(lines).groups, g, []) == Members(lines, g)
  {
    if lines != [] {
      ParseMembers(lines[..|lines| - 1]);
      ParseCurrent(lines[..|lines| - 1]);
      MembersStep(lines, Parse(lines[..|lines| - 1]));
    }
  }

  lemma MembersStep(lines: seq<string>, st: ParseState)
    requires lines != [] && st.current == CurrentAfter(lines[..|lines| - 1])
    requires forall g :: GetOr(st.groups, g, []) == Members(lines[..|lines| - 1], g)
    ensures forall g :: GetOr(Step(st, lines[|lines| - 1]).groups, g, []) == Members(lines, g)
  {
    var last := lines[|lines| - 1];
    if Skipped(last) {
      SkippedStep(st, last);
    } else if IsHeader(Strip(last)) {
      MembersHeader(lines, st);
    } else {
      MembersHost(lines, st);
    }
  }

  lemma MembersHeader(lines: seq<string>, st: ParseState)
    requires lines != [] && IsHeaderLine(lines[|lines| - 1])
    requires forall g :: GetOr(st.groups, g, []) == Members(lines[..|lines| - 1], g)
    ensures forall g :: GetOr(Step(st, lines[|lines| - 1]).groups, g, []) == Members(lines, g)
  {
    forall g ensures GetOr(Step(st, lines[|lines| - 1]).groups, g, []) == Members(lines, g) {
      MembersHeaderAt(lines, st, g);
    }
  }

  /** One group's list after a header line. */
  lemma MembersHeaderAt(lines: seq<string>, st: ParseState, g: string)
    requires lines != [] && IsHeaderLine(lines[|lines| - 1])
    requires GetOr(st.groups, g, []) == Members(lines[..|lines| - 1], g)
    ensures GetOr(Step(st, lines[|lines| - 1]).groups, g, []) == Members(lines, g)
  {
    var last := lines[|lines| - 1];
    StepHeader(st, last);
    var groups := OpenGroup(st.groups, HeaderName(Strip(last)));
    assert Members(lines, g) == Members(lines[..|lines| - 1], g);
  }

  lemma MembersHost(lines: seq<string>, st: ParseState)
    requires lines != [] && IsHostLine(lines[|lines| - 1]) && st.current == CurrentAfter(lines[..|lines| - 1])
    requires forall g :: GetOr(st.groups, g, []) == Members(lines[..|lines| - 1], g)
    ensures forall g :: GetOr(Step(st, lines[|lines| - 1]).groups, g, []) == Members(lines, g)
  {
    forall g ensures GetOr(Step(st, lines[|lines| - 1]).groups, g, []) == Members(lines, g) {
      MembersHostAt(lines, st, g);
    }
  }

  /** One group's list after a host line. */
  lemma MembersHostAt(lines: seq<string>, st: ParseState, g: string)
    requires lines != [] && IsHostLine(lines[|lines| - 1]) && st.current == CurrentAfter(lines[..|lines| - 1])
    requires GetOr(st.groups, g, []) == Members(lines[..|lines| - 1], g)
    ensures GetOr(Step(st, lines[|lines| - 1]).groups, g, []) == Members(lines, g)
  {
    var init, last := lines[..|lines| - 1], lines[|lines| - 1];
    var t := Target(st.current);
    StepHost(st, last);
    var groups := AppendTo(st.groups, t, Strip(last));
    if g == t {
      assert Members(lines, g) == Members(init, g) + [Strip(last)];
    } else {
      assert Members(lines, g) == Members(init, g);
    }
  }

  /** Opening group `t` (the header case): an existing group is kept as it
      is, a new one starts empty. */
  lemma OpenGroup(d: Dict<string, seq<string>>, t: string) returns (r: Dict<string, seq<string>>)
    ensures r == if t in Keys(d) then d else Put(d, t, [])
    ensures forall g :: g in Keys(r) <==> g in Keys(d) || g == t
    ensures forall g :: GetOr(r, g, []) == GetOr(d, g, [])
  {
    r := if t in Keys(d) then d else Put(d, t, []);
    forall g ensures GetOr(r, g, []) == GetOr(d, g, []) {
      if g != t && t !in Keys(d) {
        assert g in Keys(r) <==> g in Keys(d);
      }
    }
  }

  /** Appending `x` to the list under `t`, creating it if absent. */
  lemma AppendTo(d: Dict<string, seq<string>>, t: string, x: string) returns (r: Dict<string, seq<string>>)
    ensures var gs := if t in Keys(d) then d else Put(d, t, []);
      r == Put(gs, t, Get(gs, t) + [x])
    ensures forall g :: g in Keys(r) <==> g in Keys(d) || g == t
    ensures forall g :: GetOr(r, g, []) == if g == t then GetOr(d, t, []) + [x] else GetOr(d, g, [])
  {
    var gs := OpenGroup(d, t);
    r := Put(gs, t, Get(gs, t) + [x]);
    forall g ensures GetOr(r, g, []) == if g == t then GetOr(d, t, []) + [x] else GetOr(d, g, []) {
      if g != t {
        assert g in Keys(r) <==> g in Keys(gs);
      }
    }
  }

  /** A host line read while no header (or only `[]`) is in force lands in
      `all`, after the `all` entries read before it. */
  lemma HeaderlessLineGoesToAll(lines: seq<string>, line: string)
    requires IsHostLine(line)
    requires Target(CurrentAfter(lines)) == "all"
    ensures "all" in Keys(Parse(lines + [line]).groups)
    ensures Get(Parse(lines + [line]).groups, "all") == GetOr(Parse(lines).groups, "all", []) + [Strip(line)]
  {
    var all := lines + [line];
    assert all[..|all| - 1] == lines;
    ParseCharacterised(lines);
    ParseCharacterised(all);
    assert Declared(all, "all");
  }
}
