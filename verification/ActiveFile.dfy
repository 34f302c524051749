/** The file `ACTIVE.md`: two sections a person edits, six the system rewrites. */
module ActiveFile {
  import opened Wrappers
  import opened Strings

  const FOCUS := "Current Focus"
  const LOOPS := "Open Loops"
  const DEFAULT_FOCUS := "- Add current projects and " + "active workstreams here."
  const DEFAULT_LOOPS := "- [ ] Add manual open loops here."

  // ------------------------------------------------------------------------ parsing

  /** The heading a line matching `^##\s+(.+?)\s*$` carries. Two number signs, a space and
      any further character suffice: the space pattern gives back what the rest needs. */
  function Heading(line: string): Option<string> {
    if |line| >= 4 && line[0] == '#' && line[1] == '#' && IsSpace(line[2]) then Some(Strip(line[2..])) else None
  }

  predicate AllSpace(s: string) {
    forall i :: 0 <= i < |s| ==> IsSpace(s[i])
  }

  /** `line` is two number signs, then space, then something. */
  predicate SplitsAs(line: string, space: string, text: string) {
    space != "" && AllSpace(space) && text != "" && line == ['#', '#'] + space + text
  }

  lemma HeadingExactlyWhen(line: string)
    ensures Heading(line).Some? <==> exists space, text :: SplitsAs(line, space, text)
    ensures forall space, text :: SplitsAs(line, space, text) ==> Heading(line) == Some(Strip(space + text))
  {
    if Heading(line).Some? {
      HeadingSplits(line);
    }
    forall space, text | SplitsAs(line, space, text)
      ensures Heading(line) == Some(Strip(space + text))
    {
      SplitIsHeading(line, space, text);
    }
  }

  lemma HeadingSplits(line: string)
    requires Heading(line).Some?
    ensures SplitsAs(line, [line[2]], line[3..])
  {
    assert line == ['#', '#'] + [line[2]] + line[3..];
  }

  lemma SplitIsHeading(line: string, space: string, text: string)
    requires SplitsAs(line, space, text)
    ensures Heading(line) == Some(Strip(space + text))
  {
    assert |line| >= 4 && line[0] == '#' && line[1] == '#';
    assert line[2..] == space + text;
    assert line[2] == space[0];
  }

  datatype State = State(heading: Option<string>, lines: seq<string>, sections: map<string, seq<string>>)

  const START := State(None, [], map[])

  function Close(st: State): map<string, seq<string>> {
    if st.heading.Some? then st.sections[st.heading.value := st.lines] else st.sections
  }

  function Feed(st: State, line: string): State {
    var h := Heading(line);
    if h.Some? then State(h, [], Close(st))
    else if st.heading.Some? then st.(lines := st.lines + [line])
    else st
  }

  function FeedAll(st: State, lines: seq<string>): State {
    if lines == [] then st else Feed(FeedAll(st, lines[..|lines| - 1]), lines[|lines| - 1])
  }

  /** The sections of a text: each heading with the lines below its last occurrence. */
  function Sections(text: string): map<string, seq<string>> {
    Close(FeedAll(START, SplitLines(text)))
  }

  method SplitSections(text: string) returns (sections: map<string, string>)
    ensures sections.Keys == Sections(text).Keys
    ensures forall h :: h in sections ==> sections[h] == Strip(Join(Sections(text)[h]))
  {
    var found: map<string, seq<string>> := map[];
    var heading, current := None, [];
    var lines := SplitLines(text);
    for i := 0 to |lines|
      invariant State(heading, current, found) == FeedAll(START, lines[..i])
    {
      FeedNext(lines, i);
      var h := Heading(lines[i]);
      if h.Some? {
        if heading.Some? {
          found := found[heading.value := current];
        }
        heading, current := h, [];
      } else if heading.Some? {
        current := current + [lines[i]];
      }
    }
    assert lines[..|lines|] == lines;
    if heading.Some? {
      found := found[heading.value := current];
    }
    sections := map h | h in found :: Strip(Join(found[h]));
  }

  lemma FeedNext(lines: seq<string>, i: nat)
    requires i < |lines|
    ensures FeedAll(START, lines[..i + 1]) == Feed(FeedAll(START, lines[..i]), lines[i])
  {
    assert lines[..i + 1][..i] == lines[..i];
  }

  // ----------------------------------------------------------------------- printing

  const FILE_TITLE := "# ACTIVE"

  function Title(name: string): string {
    "## " + name
  }

  function Updated(today: string): string {
    "updated_at: " + today
  }

  function Block(name: string, text: string): seq<string> {
    [Title(name), text, ""]
  }

  datatype Auto = Auto(name: string, text: string)

  function AutoBlocks(autos: seq<Auto>): seq<string> {
    if autos == [] then [] else Block(autos[0].name, autos[0].text) + AutoBlocks(autos[1..])
  }

  function Print(today: string, focus: string, loops: string, autos: seq<Auto>): string {
    Join([FILE_TITLE, Updated(today), ""] + Block(FOCUS, focus) + Block(LOOPS, loops) + AutoBlocks(autos))
  }

  /** `value.strip() or default` */
  function StripOr(value: string, default: string): string {
    var stripped := Strip(value);
    if stripped == "" then default else stripped
  }

  function Kept(prior: Option<string>, name: string, default: string): string {
    if prior.Some? && name in Sections(prior.value) then StripOr(Strip(Join(Sections(prior.value)[name])), default)
    else StripOr(default, default)
  }

  function Refresh(prior: Option<string>, today: string, autos: seq<Auto>): string {
    Print(today, Kept(prior, FOCUS, DEFAULT_FOCUS), Kept(prior, LOOPS, DEFAULT_LOOPS), autos)
  }

  // ------------------------------------------------------- what a section value looks like

  ghost predicate Plain(lines: seq<string>) {
    forall i :: 0 <= i < |lines| ==> Heading(lines[i]) == None
  }

  /** Stripped, not empty, and only its first line can look like a heading. */
  ghost predicate IsValue(v: string) {
    v != "" && IsStripped(v) && OnlyNewlines(v) && Plain(Pieces(v)[1..])
  }

  predicate StartsWithHeading(v: string) {
    Heading(Pieces(v)[0]).Some?
  }

  ghost predicate PlainAndUnbroken(lines: seq<string>) {
    Plain(lines) && forall i :: 0 <= i < |lines| ==> Unbroken(lines[i])
  }

  ghost predicate CollectsLines(st: State) {
    PlainAndUnbroken(st.lines) && forall h :: h in st.sections ==> PlainAndUnbroken(st.sections[h])
  }

  lemma FeedCollects(st: State, line: string)
    requires CollectsLines(st) && Unbroken(line)
    ensures CollectsLines(Feed(st, line))
  {
  }

  lemma {:induction false} FeedCollectsLines(lines: seq<string>)
    requires forall i :: 0 <= i < |lines| ==> Unbroken(lines[i])
    ensures CollectsLines(FeedAll(START, lines))
  {
    if lines != [] {
      FeedCollectsLines(lines[..|lines| - 1]);
      FeedCollects(FeedAll(START, lines[..|lines| - 1]), lines[|lines| - 1]);
    }
  }

  lemma SectionLines(text: string, name: string)
    requires name in Sections(text)
    ensures PlainAndUnbroken(Sections(text)[name])
  {
    var lines := SplitLines(text);
    forall i | 0 <= i < |lines|
      ensures Unbroken(lines[i])
    {
      PiecesUnbroken(text, i);
    }
    FeedCollectsLines(lines);
  }

  lemma PrefixNotHeading(prefix: string, line: string)
    requires prefix <= line && Heading(line) == None
    ensures Heading(prefix) == None
  {
  }

  lemma StrippedTail(t: string)
    requires Plain(Pieces(t))
    ensures Plain(Pieces(Strip(t))[1..])
  {
    var left := StripLeft(t);
    forall k | 0 < k < |Pieces(Strip(t))|
      ensures Heading(Pieces(Strip(t))[k]) == None
    {
      PiecesOfPrefix(Strip(t), left, k);
      var at := PiecesOfSuffix(t, |t| - |left|, k);
      PrefixNotHeading(Pieces(Strip(t))[k], Pieces(t)[at]);
    }
  }

  lemma StrippedNewlines(t: string)
    requires OnlyNewlines(t)
    ensures OnlyNewlines(Strip(t))
  {
    var left := StripLeft(t);
    assert forall i :: 0 <= i < |left| ==> left[i] == t[|t| - |left| + i];
  }

  lemma StripIsValue(t: string)
    requires Plain(Pieces(t)) && OnlyNewlines(t) && Strip(t) != ""
    ensures IsValue(Strip(t))
  {
    StrippedNewlines(t);
    StrippedTail(t);
  }

  lemma JoinedIsPlain(lines: seq<string>)
    requires PlainAndUnbroken(lines)
    ensures Plain(Pieces(Join(lines))) && OnlyNewlines(Join(lines))
  {
    JoinOnlyNewlines(lines);
    if lines != [] {
      PiecesOfJoin(lines);
    }
  }

  lemma JoinedIsValue(lines: seq<string>)
    requires PlainAndUnbroken(lines) && Strip(Join(lines)) != ""
    ensures IsValue(Strip(Join(lines)))
  {
    JoinedIsPlain(lines);
    StripIsValue(Join(lines));
  }

  // ------------------------------------------------------------- lines of the printed file

  /** The lines of texts joined by newlines. */
  function AllPieces(texts: seq<string>): seq<string> {
    if texts == [] then [] else AllPieces(texts[..|texts| - 1]) + Pieces(texts[|texts| - 1])
  }

  lemma {:induction false} AllPiecesConcat(a: seq<string>, b: seq<string>)
    ensures AllPieces(a + b) == AllPieces(a) + AllPieces(b)
  {
    if b == [] {
      assert a + b == a;
    } else {
      var all, front := a + b, b[..|b| - 1];
      assert all[..|all| - 1] == a + front && all[|all| - 1] == b[|b| - 1];
      AllPiecesConcat(a, front);
      assert AllPieces(a) + (AllPieces(front) + Pieces(b[|b| - 1])) ==
             AllPieces(a) + AllPieces(front) + Pieces(b[|b| - 1]);
    }
  }

  lemma {:induction false} JoinAppend(texts: seq<string>, last: string)
    requires texts != []
    ensures Join(texts + [last]) == Join(texts) + "\n" + last
  {
    JoinConcat(texts, [last]);
  }

  lemma {:induction false} PiecesOfJoined(texts: seq<string>)
    requires texts != []
    ensures Pieces(Join(texts)) == AllPieces(texts)
  {
    var front, last := texts[..|texts| - 1], texts[|texts| - 1];
    assert texts == front + [last];
    if front != [] {
      PiecesOfJoined(front);
      JoinAppend(front, last);
      PiecesConcat(Join(front), last);
    } else {
      assert AllPieces(texts) == Pieces(last);
    }
  }

  /** A file whose last text is empty ends in a newline, which adds no line. */
  lemma LinesOfJoined(texts: seq<string>)
    requires texts != [] && texts[|texts| - 1] == ""
    ensures SplitLines(Join(texts)) == AllPieces(texts[..|texts| - 1])
  {
    PiecesOfJoined(texts);
    assert Pieces("") == [""];
  }

  lemma {:induction false} FeedAllConcat(st: State, a: seq<string>, b: seq<string>)
    ensures FeedAll(st, a + b) == FeedAll(FeedAll(st, a), b)
  {
    if b == [] {
      assert a + b == a;
    } else {
      assert (a + b)[..|a + b| - 1] == a + b[..|b| - 1];
      FeedAllConcat(st, a, b[..|b| - 1]);
    }
  }

  lemma {:induction false} FeedPlain(st: State, lines: seq<string>)
    requires Plain(lines)
    ensures FeedAll(st, lines) == if st.heading.Some? then st.(lines := st.lines + lines) else st
  {
    if lines == [] {
      assert st.lines + [] == st.lines;
    } else {
      var front, last := lines[..|lines| - 1], lines[|lines| - 1];
      FeedPlain(st, front);
      assert st.lines + front + [last] == st.lines + lines;
    }
  }

  /** A section name that survives being printed as a heading. */
  ghost predicate IsName(name: string) {
    name != "" && IsStripped(name) && Unbroken(name)
  }

  lemma HeadingLine(name: string)
    requires IsName(name)
    ensures Heading(Title(name)) == Some(name) && Unbroken(Title(name))
  {
    assert Title(name)[2..] == [' '] + name;
    StripAfterSpace(name);
  }

  /** The state after a printed section: its text, or what the heading in its first line
      makes of it. */
  function AfterBlock(st: State, name: string, v: string): State {
    var pieces, h := Pieces(v), Heading(Pieces(v)[0]);
    if h.Some? then State(h, pieces[1..] + [""], Close(st)[name := []])
    else State(Some(name), pieces + [""], Close(st))
  }

  lemma FeedPlainText(st: State, lines: seq<string>)
    requires Plain(lines) && st.heading.Some? && st.lines == []
    ensures FeedAll(st, lines + [""]) == st.(lines := lines + [""])
  {
    assert Heading("") == None;
    FeedPlain(st, lines + [""]);
    assert st.lines + (lines + [""]) == lines + [""];
  }

  lemma FeedText(st: State, v: string)
    requires Plain(Pieces(v)[1..]) && st.heading.Some? && st.lines == []
    ensures var pieces, h := Pieces(v), Heading(Pieces(v)[0]);
            FeedAll(st, pieces + [""]) == if h.Some? then State(h, pieces[1..] + [""], Close(st))
              else st.(lines := pieces + [""])
  {
    var pieces, h := Pieces(v), Heading(Pieces(v)[0]);
    if h.Some? {
      assert pieces + [""] == [pieces[0]] + (pieces[1..] + [""]);
      FeedAllConcat(st, [pieces[0]], pieces[1..] + [""]);
      FeedOne(st, pieces[0]);
      FeedPlainText(Feed(st, pieces[0]), pieces[1..]);
    } else {
      FeedPlainText(st, pieces);
    }
  }

  lemma FeedBlock(st: State, name: string, v: string)
    requires IsName(name) && Plain(Pieces(v)[1..])
    ensures FeedAll(st, AllPieces(Block(name, v))) == AfterBlock(st, name, v)
  {
    var title := Title(name);
    HeadingLine(name);
    BlockPieces(title, v);
    FeedAllConcat(st, [title], Pieces(v) + [""]);
    FeedOne(st, title);
    FeedText(State(Some(name), [], Close(st)), v);
  }

  lemma FeedOne(st: State, line: string)
    ensures FeedAll(st, [line]) == Feed(st, line)
  {
    assert [line][..0] == [];
    assert FeedAll(st, [line][..0]) == st;
  }

  lemma BlockPieces(title: string, v: string)
    requires Unbroken(title)
    ensures AllPieces([title, v, ""]) == [title] + (Pieces(v) + [""])
  {
    PiecesOfUnbroken(title);
    AllPiecesConcat([title, v], [""]);
    AllPiecesConcat([title], [v]);
    assert [title, v, ""] == [title, v] + [""] && [title, v] == [title] + [v];
    OnePiece(title);
    OnePiece(v);
    OnePiece("");
  }

  lemma OnePiece(text: string)
    ensures AllPieces([text]) == Pieces(text)
  {
    assert [text][..0] == [];
  }

  lemma ValueComesBack(v: string)
    requires IsValue(v)
    ensures Strip(Join(Pieces(v) + [""])) == v
  {
    JoinOfPieces(v);
    JoinAppend(Pieces(v), "");
    assert v + "\n" + "" == v + "\n";
    StripOfStripped(v);
  }

  lemma WithoutItsHeading(v: string)
    requires IsValue(v) && StartsWithHeading(v)
    ensures |Strip(Join(Pieces(v)[1..] + [""]))| < |v|
  {
    var first, rest := Pieces(v)[0], Pieces(v)[1..];
    JoinOfPieces(v);
    assert Pieces(v) == [first] + rest;
    if rest == [] {
      assert rest + [""] == [""];
    } else {
      JoinConcat([first], rest);
      JoinAppend(rest, "");
    }
  }

  // ------------------------------------------------------------------ the rewritten part

  /** No line of the automatic part is a heading of that name. */
  ghost predicate LeavesAlone(autos: seq<Auto>, name: string) {
    forall k :: 0 <= k < |autos| ==> LeavesNameAlone(autos[k], name)
  }

  ghost predicate LeavesNameAlone(auto: Auto, name: string) {
    && IsName(auto.name) && auto.name != name
    && forall i :: 0 <= i < |Pieces(auto.text)| ==> Heading(Pieces(auto.text)[i]) != Some(name)
  }

  ghost predicate NoneIs(lines: seq<string>, name: string) {
    forall i :: 0 <= i < |lines| ==> Heading(lines[i]) != Some(name)
  }

  lemma BlockLines(auto: Auto, name: string)
    requires LeavesNameAlone(auto, name)
    ensures var lines := AllPieces(Block(auto.name, auto.text));
            |lines| >= 3 && Heading(lines[0]) == Some(auto.name) && NoneIs(lines, name)
  {
    HeadingLine(auto.name);
    BlockPieces(Title(auto.name), auto.text);
    TitledLines(Title(auto.name), Pieces(auto.text), name);
  }

  lemma TitledLines(title: string, lines: seq<string>, name: string)
    requires NoneIs(lines, name) && Heading(title) != Some(name)
    ensures NoneIs([title] + (lines + [""]), name)
  {
    assert Heading("") == None;
    NoneIsConcat(lines, [""], name);
    NoneIsConcat([title], lines + [""], name);
  }

  lemma NoneIsConcat(a: seq<string>, b: seq<string>, name: string)
    requires NoneIs(a, name) && NoneIs(b, name)
    ensures NoneIs(a + b, name)
  {
  }

  lemma {:induction false} AutoLines(autos: seq<Auto>, name: string)
    requires LeavesAlone(autos, name)
    ensures NoneIs(AllPieces(AutoBlocks(autos)), name)
    ensures autos != [] ==> var lines := AllPieces(AutoBlocks(autos));
                            |lines| >= 3 && Heading(lines[0]) == Some(autos[0].name)
    ensures autos != [] ==> var texts := AutoBlocks(autos); texts != [] && texts[|texts| - 1] == ""
  {
    if autos != [] {
      BlockLines(autos[0], name);
      AutoLines(autos[1..], name);
      AllPiecesConcat(Block(autos[0].name, autos[0].text), AutoBlocks(autos[1..]));
      if autos[1..] == [] {
        assert AutoBlocks(autos) == Block(autos[0].name, autos[0].text);
      }
    }
  }

  lemma {:induction false} TailKeeps(st: State, lines: seq<string>, name: string)
    requires lines != [] && Heading(lines[0]).Some? && NoneIs(lines, name)
    ensures var after := FeedAll(st, lines);
            && after.heading.Some? && after.heading != Some(name)
            && (name in Close(after) <==> name in Close(st))
            && (name in Close(st) ==> Close(after)[name] == Close(st)[name])
  {
    if |lines| == 1 {
      assert lines == [lines[0]];
      FeedOne(st, lines[0]);
    } else {
      TailKeeps(st, lines[..|lines| - 1], name);
    }
  }

  lemma UpdatedLine(today: string)
    requires Unbroken(today)
    ensures Unbroken(Updated(today)) && Heading(Updated(today)) == None
  {
    assert Unbroken("updated_at: ");
  }

  lemma FileTitleLine()
    ensures Unbroken(FILE_TITLE) && Heading(FILE_TITLE) == None
  {
    assert FILE_TITLE[1] == ' ';
  }

  lemma Preamble(today: string)
    requires Unbroken(today)
    ensures FeedAll(START, AllPieces([FILE_TITLE, Updated(today), ""])) == START
  {
    UpdatedLine(today);
    FileTitleLine();
    PreambleLines(FILE_TITLE, Updated(today));
  }

  lemma PreambleLines(title: string, updated: string)
    requires Unbroken(title) && Unbroken(updated) && Heading(title) == None && Heading(updated) == None
    ensures FeedAll(START, AllPieces([title, updated, ""])) == START
  {
    BlockPieces(title, updated);
    PiecesOfUnbroken(updated);
    assert Heading("") == None;
    FeedPlain(START, [title] + ([updated] + [""]));
  }

  // ---------------------------------------------------------------------- what is printed

  /** The automatic part holds no heading line of a manual section's name. */
  ghost predicate Refreshable(today: string, autos: seq<Auto>) {
    Unbroken(today) && autos != [] && LeavesAlone(autos, FOCUS) && LeavesAlone(autos, LOOPS)
  }

  lemma Names()
    ensures IsName(FOCUS) && IsName(LOOPS) && FOCUS != LOOPS
  {
    assert FOCUS[0] != LOOPS[0];
  }

  function AfterManual(focus: string, loops: string): State {
    AfterBlock(AfterBlock(START, FOCUS, focus), LOOPS, loops)
  }

  /** The lines `Print` writes, up to the empty text at the end. */
  lemma PrintedLines(today: string, focus: string, loops: string, autos: seq<Auto>)
    requires autos != [] && LeavesAlone(autos, FOCUS)
    ensures var texts := AutoBlocks(autos);
            && texts != []
            && SplitLines(Print(today, focus, loops, autos))
               == AllPieces([FILE_TITLE, Updated(today), ""]) + AllPieces(Block(FOCUS, focus))
                  + AllPieces(Block(LOOPS, loops)) + AllPieces(texts[..|texts| - 1])
  {
    AutoLines(autos, FOCUS);
    JoinedParts([FILE_TITLE, Updated(today), ""], Block(FOCUS, focus), Block(LOOPS, loops), AutoBlocks(autos));
  }

  lemma JoinedParts(a: seq<string>, b: seq<string>, c: seq<string>, d: seq<string>)
    requires d != [] && d[|d| - 1] == ""
    ensures SplitLines(Join(a + b + c + d)) == AllPieces(a) + AllPieces(b) + AllPieces(c) + AllPieces(d[..|d| - 1])
  {
    var all := a + b + c + d;
    LinesOfJoined(all);
    assert all[..|all| - 1] == a + b + c + d[..|d| - 1];
    AllPiecesConcat(a + b + c, d[..|d| - 1]);
    AllPiecesConcat(a + b, c);
    AllPiecesConcat(a, b);
  }

  lemma FeedPrinted(pre: seq<string>, f: seq<string>, l: seq<string>, tail: seq<string>)
    requires FeedAll(START, pre) == START
    ensures FeedAll(START, pre + f + l + tail) == FeedAll(FeedAll(FeedAll(START, f), l), tail)
  {
    FeedAllConcat(START, pre + f + l, tail);
    FeedAllConcat(START, pre + f, l);
    FeedAllConcat(START, pre, f);
  }

  lemma AutoTail(autos: seq<Auto>, name: string)
    requires autos != [] && LeavesAlone(autos, name)
    ensures var texts := AutoBlocks(autos);
            && texts != []
            && var tail := AllPieces(texts[..|texts| - 1]);
            && tail != [] && Heading(tail[0]).Some? && NoneIs(tail, name)
  {
    AutoLines(autos, name);
    var texts := AutoBlocks(autos);
    var all, tail := AllPieces(texts), AllPieces(texts[..|texts| - 1]);
    assert all == tail + Pieces("");
    assert forall i :: 0 <= i < |tail| ==> tail[i] == all[i];
  }

  /** Of the printed file, the automatic part changes nothing about a section it leaves alone. */
  lemma PrintedSection(today: string, focus: string, loops: string, autos: seq<Auto>, name: string)
    requires Unbroken(today) && Plain(Pieces(focus)[1..]) && Plain(Pieces(loops)[1..])
    requires autos != [] && LeavesAlone(autos, FOCUS) && LeavesAlone(autos, name)
    ensures var printed, manual := Sections(Print(today, focus, loops, autos)), Close(AfterManual(focus, loops));
            (name in printed <==> name in manual) && (name in manual ==> printed[name] == manual[name])
  {
    var texts := AutoBlocks(autos);
    Names();
    PrintedLines(today, focus, loops, autos);
    Preamble(today);
    AutoTail(autos, name);
    var tail := AllPieces(texts[..|texts| - 1]);
    FeedPrinted(AllPieces([FILE_TITLE, Updated(today), ""]), AllPieces(Block(FOCUS, focus)),
                AllPieces(Block(LOOPS, loops)), tail);
    FeedBlock(START, FOCUS, focus);
    FeedBlock(AfterBlock(START, FOCUS, focus), LOOPS, loops);
    TailKeeps(AfterManual(focus, loops), tail, name);
  }

  ghost predicate ReadsAs(m: map<string, seq<string>>, name: string, v: string) {
    name in m && Strip(Join(m[name])) == v
  }

  /** A section as it stands after its own block, when it was written under `name`. */
  lemma OwnBlock(st: State, name: string, v: string)
    requires IsValue(v)
    ensures name in Close(AfterBlock(st, name, v))
    ensures ReadsAs(Close(AfterBlock(st, name, v)), name, v) <==> !StartsWithHeading(v)
  {
    if StartsWithHeading(v) {
      HeadingTakesOver(st, name, v);
    } else {
      ValueComesBack(v);
    }
  }

  lemma HeadingTakesOver(st: State, name: string, v: string)
    requires IsValue(v) && StartsWithHeading(v)
    ensures name in Close(AfterBlock(st, name, v)) && |Strip(Join(Close(AfterBlock(st, name, v))[name]))| < |v|
  {
    var m, h := Close(AfterBlock(st, name, v)), Heading(Pieces(v)[0]).value;
    if h == name {
      assert m[name] == Pieces(v)[1..] + [""];
      WithoutItsHeading(v);
    } else {
      assert m[name] == [];
      assert Join([]) == "" && |Strip("")| == 0;
    }
  }

  lemma LaterBlock(st: State, name: string, v: string, other: string)
    requires !StartsWithHeading(v) && name != other
    ensures var m := Close(AfterBlock(st, name, v));
            (other in m <==> other in Close(st)) && (other in m ==> m[other] == Close(st)[other])
  {
  }

  /** Open Loops reads back as written if and only if it does not begin with a heading line;
      and then Current Focus does if and only if it does not either. */
  ghost predicate ReadsBackExactly(m: map<string, seq<string>>, focus: string, loops: string) {
    && FOCUS in m && LOOPS in m
    && (ReadsAs(m, LOOPS, loops) <==> !StartsWithHeading(loops))
    && (!StartsWithHeading(loops) ==> (ReadsAs(m, FOCUS, focus) <==> !StartsWithHeading(focus)))
  }

  lemma ManualReadsBack(focus: string, loops: string)
    requires IsValue(focus) && IsValue(loops)
    ensures ReadsBackExactly(Close(AfterManual(focus, loops)), focus, loops)
  {
    Names();
    OwnBlock(START, FOCUS, focus);
    var st := AfterBlock(START, FOCUS, focus);
    OwnBlock(st, LOOPS, loops);
    KeepsName(st, LOOPS, loops, FOCUS);
    if !StartsWithHeading(loops) {
      LaterBlock(st, LOOPS, loops, FOCUS);
    }
  }

  lemma KeepsName(st: State, name: string, v: string, other: string)
    requires other in Close(st)
    ensures other in Close(AfterBlock(st, name, v))
  {
  }

  lemma PrintedReadsBack(today: string, focus: string, loops: string, autos: seq<Auto>)
    requires Refreshable(today, autos) && IsValue(focus) && IsValue(loops)
    ensures ReadsBackExactly(Sections(Print(today, focus, loops, autos)), focus, loops)
  {
    ManualReadsBack(focus, loops);
    PrintedSection(today, focus, loops, autos, FOCUS);
    PrintedSection(today, focus, loops, autos, LOOPS);
  }

  /** Parsing the printed file gives back both manual sections if and only if neither begins
      with a heading line. */
  lemma RoundTripExactlyWhen(today: string, focus: string, loops: string, autos: seq<Auto>)
    requires Refreshable(today, autos) && IsValue(focus) && IsValue(loops)
    ensures var m := Sections(Print(today, focus, loops, autos));
            ReadsAs(m, FOCUS, focus) && ReadsAs(m, LOOPS, loops) <==>
              !StartsWithHeading(focus) && !StartsWithHeading(loops)
  {
    PrintedReadsBack(today, focus, loops, autos);
  }

  // ------------------------------------------------------------------------- refreshing

  lemma Defaults()
    ensures IsValue(DEFAULT_FOCUS) && !StartsWithHeading(DEFAULT_FOCUS)
    ensures IsValue(DEFAULT_LOOPS) && !StartsWithHeading(DEFAULT_LOOPS)
  {
    DefaultFocus();
    DefaultLoops();
  }

  lemma DefaultFocus()
    ensures IsValue(DEFAULT_FOCUS) && !StartsWithHeading(DEFAULT_FOCUS)
  {
    OneLineValue("- Add current projects and ", "active workstreams here.");
  }

  lemma DefaultLoops()
    ensures IsValue(DEFAULT_LOOPS) && !StartsWithHeading(DEFAULT_LOOPS)
  {
    OneLineValue(DEFAULT_LOOPS, "");
    assert DEFAULT_LOOPS + "" == DEFAULT_LOOPS;
  }

  lemma OneLineValue(start: string, end: string)
    requires start != "" && start[0] == '-' && Unbroken(start) && Unbroken(end)
    requires !IsSpace((start + end)[|start + end| - 1])
    ensures IsValue(start + end) && !StartsWithHeading(start + end)
  {
    PiecesOfUnbroken(start + end);
  }

  lemma StripOrStripped(value: string, default: string)
    requires IsStripped(value)
    ensures StripOr(value, default) == if value == "" then default else value
  {
    StripOfStripped(value);
  }

  /** Whatever the file held, what is kept of a section is a value. */
  lemma KeptIsValue(prior: Option<string>, name: string, default: string)
    requires IsValue(default)
    ensures IsValue(Kept(prior, name, default))
  {
    StripOrStripped(default, default);
    if prior.Some? && name in Sections(prior.value) {
      var lines := Sections(prior.value)[name];
      SectionLines(prior.value, name);
      StripOrStripped(Strip(Join(lines)), default);
      if Strip(Join(lines)) != "" {
        JoinedIsValue(lines);
      }
    }
  }

  lemma KeptReads(text: string, name: string, default: string, v: string)
    requires name in Sections(text) && IsValue(v)
    ensures ReadsAs(Sections(text), name, v) ==> Kept(Some(text), name, default) == v
    ensures Kept(Some(text), name, default) == v ==> ReadsAs(Sections(text), name, v) || v == default
  {
    StripOrStripped(Strip(Join(Sections(text)[name])), default);
  }

  /** One refresh keeps both manual sections of any prior file if and only if neither, once
      stripped, begins with a heading line. */
  lemma RefreshKeepsExactlyWhen(prior: Option<string>, today: string, autos: seq<Auto>)
    requires Refreshable(today, autos)
    ensures var focus, loops := Kept(prior, FOCUS, DEFAULT_FOCUS), Kept(prior, LOOPS, DEFAULT_LOOPS);
            var file := Some(Refresh(prior, today, autos));
            Kept(file, FOCUS, DEFAULT_FOCUS) == focus && Kept(file, LOOPS, DEFAULT_LOOPS) == loops
            <==> !StartsWithHeading(focus) && !StartsWithHeading(loops)
  {
    var focus, loops := Kept(prior, FOCUS, DEFAULT_FOCUS), Kept(prior, LOOPS, DEFAULT_LOOPS);
    Defaults();
    KeptIsValue(prior, FOCUS, DEFAULT_FOCUS);
    KeptIsValue(prior, LOOPS, DEFAULT_LOOPS);
    var text := Print(today, focus, loops, autos);
    PrintedReadsBack(today, focus, loops, autos);
    KeptReads(text, FOCUS, DEFAULT_FOCUS, focus);
    KeptReads(text, LOOPS, DEFAULT_LOOPS, loops);
  }

  datatype Occasion = Occasion(today: string, autos: seq<Auto>)

  /** The file after a series of refreshes. */
  function RefreshAll(prior: Option<string>, occasions: seq<Occasion>): Option<string> {
    if occasions == [] then prior
    else
      var last := occasions[|occasions| - 1];
      Some(Refresh(RefreshAll(prior, occasions[..|occasions| - 1]), last.today, last.autos))
  }

  /** From then on no number of refreshes changes the manual sections. */
  lemma {:induction false} RefreshesKeep(prior: Option<string>, occasions: seq<Occasion>)
    requires forall i :: 0 <= i < |occasions| ==> Refreshable(occasions[i].today, occasions[i].autos)
    requires !StartsWithHeading(Kept(prior, FOCUS, DEFAULT_FOCUS))
             && !StartsWithHeading(Kept(prior, LOOPS, DEFAULT_LOOPS))
    ensures var file := RefreshAll(prior, occasions);
            && Kept(file, FOCUS, DEFAULT_FOCUS) == Kept(prior, FOCUS, DEFAULT_FOCUS)
            && Kept(file, LOOPS, DEFAULT_LOOPS) == Kept(prior, LOOPS, DEFAULT_LOOPS)
  {
    if occasions != [] {
      var front, last := occasions[..|occasions| - 1], occasions[|occasions| - 1];
      RefreshesKeep(prior, front);
      RefreshKeepsExactlyWhen(RefreshAll(prior, front), last.today, last.autos);
    }
  }

  lemma TwoLines(a: string, b: string)
    requires Unbroken(a) && Unbroken(b) && b != ""
    ensures SplitLines(a + "\n" + b) == [a] + [b]
  {
    PiecesOfUnbroken(a);
    PiecesOfUnbroken(b);
    SplitLinesConcat(a, b);
  }

  lemma FeedTwo(a: string, b: string)
    ensures FeedAll(START, [a] + [b]) == Feed(Feed(START, a), b)
  {
    FeedAllConcat(START, [a], [b]);
    FeedOne(START, a);
    FeedOne(Feed(START, a), b);
  }

  lemma OneSection(title: string, name: string, line: string)
    requires Unbroken(title) && Heading(title) == Some(name) && Unbroken(line) && line != "" && Heading(line) == None
    ensures Sections(title + "\n" + line) == map[name := [line]]
  {
    TwoLines(title, line);
    FeedTwo(title, line);
    assert [] + [line] == [line];
  }

  function Indented(line: string): string {
    [' '] + line
  }

  lemma IndentedLine(line: string)
    requires Unbroken(line)
    ensures Unbroken(Indented(line)) && Indented(line) != "" && Heading(Indented(line)) == None
  {
  }

  /** A file with a single section of one indented line. */
  function IndentedSection(name: string, line: string): string {
    Title(name) + "\n" + Indented(line)
  }

  lemma SectionsOfIndented(name: string, line: string)
    requires IsName(name) && Unbroken(line)
    ensures Sections(IndentedSection(name, line)) == map[name := [Indented(line)]]
  {
    HeadingLine(name);
    IndentedLine(line);
    OneSection(Title(name), name, Indented(line));
  }

  lemma KeptPresent(text: string, name: string, default: string, line: string)
    requires name in Sections(text) && Sections(text)[name] == [Indented(line)] && IsStripped(line) && line != ""
    ensures Kept(Some(text), name, default) == line
  {
    var lines := Sections(text)[name];
    assert Join(lines) == Indented(line);
    StripAfterSpace(line);
    StripOrStripped(line, default);
    assert Kept(Some(text), name, default) == StripOr(Strip(Join(lines)), default);
  }

  lemma KeptAbsent(text: string, name: string, default: string)
    requires name !in Sections(text) && IsStripped(default)
    ensures Kept(Some(text), name, default) == default
  {
    StripOrStripped(default, default);
  }

  lemma KeptOfIndented(line: string)
    requires Unbroken(line) && IsStripped(line) && line != ""
    ensures Kept(Some(IndentedSection(FOCUS, line)), FOCUS, DEFAULT_FOCUS) == line
    ensures Kept(Some(IndentedSection(FOCUS, line)), LOOPS, DEFAULT_LOOPS) == DEFAULT_LOOPS
  {
    Names();
    Defaults();
    SectionsOfIndented(FOCUS, line);
    KeptPresent(IndentedSection(FOCUS, line), FOCUS, DEFAULT_FOCUS, line);
    KeptAbsent(IndentedSection(FOCUS, line), LOOPS, DEFAULT_LOOPS);
  }

  /** Stripping takes the indent away, and the refresh loses the section. */
  lemma IndentedHeadingIsLost(line: string, today: string, autos: seq<Auto>)
    requires Unbroken(line) && IsStripped(line) && Heading(line).Some? && Refreshable(today, autos)
    ensures var prior := Some(IndentedSection(FOCUS, line));
            && Kept(prior, FOCUS, DEFAULT_FOCUS) == line
            && Kept(Some(Refresh(prior, today, autos)), FOCUS, DEFAULT_FOCUS) != line
  {
    Defaults();
    KeptOfIndented(line);
    PiecesOfUnbroken(line);
    PrintedReadsBack(today, line, DEFAULT_LOOPS, autos);
    KeptReads(Print(today, line, DEFAULT_LOOPS, autos), FOCUS, DEFAULT_FOCUS, line);
  }

  // -------------------------------------------------------------- the six headings written

  function WorkAutos(loops: string, review: string): seq<Auto> {
    [Auto("Auto Loops", loops), Auto("Needs Human Review", review)]
  }

  function TrustAutos(contradictions: string, stale: string): seq<Auto> {
    [Auto("Contradictions", contradictions), Auto("Stale Facts", stale)]
  }

  function QueueAutos(relearn: string, evals: string): seq<Auto> {
    [Auto("Relearn Queue", relearn), Auto("Eval Backlog", evals)]
  }

  ghost predicate IsApart(auto: Auto) {
    LeavesNameAlone(auto, FOCUS) && LeavesNameAlone(auto, LOOPS)
  }

  ghost predicate IsHarmless(text: string) {
    NoneIs(Pieces(text), FOCUS) && NoneIs(Pieces(text), LOOPS)
  }

  lemma NamedApart(name: string, text: string)
    requires IsName(name) && (|name| != |FOCUS| || name[0] != FOCUS[0]) && (|name| != |LOOPS| || name[0] != LOOPS[0])
    requires IsHarmless(text)
    ensures IsApart(Auto(name, text))
  {
  }

  ghost predicate AllApart(autos: seq<Auto>) {
    forall k :: 0 <= k < |autos| ==> IsApart(autos[k])
  }

  lemma WorkApart(loops: string, review: string)
    requires IsHarmless(loops) && IsHarmless(review)
    ensures AllApart(WorkAutos(loops, review))
  {
    NamedApart("Auto Loops", loops);
    NamedApart("Needs Human Review", review);
  }

  lemma TrustApart(contradictions: string, stale: string)
    requires IsHarmless(contradictions) && IsHarmless(stale)
    ensures AllApart(TrustAutos(contradictions, stale))
  {
    NamedApart("Contradictions", contradictions);
    NamedApart("Stale Facts", stale);
  }

  lemma QueueApart(relearn: string, evals: string)
    requires IsHarmless(relearn) && IsHarmless(evals)
    ensures AllApart(QueueAutos(relearn, evals))
  {
    NamedApart("Relearn Queue", relearn);
    NamedApart("Eval Backlog", evals);
  }

  lemma PartsAreRefreshable(today: string, a: seq<Auto>, b: seq<Auto>, c: seq<Auto>)
    requires Unbroken(today) && a != [] && AllApart(a) && AllApart(b) && AllApart(c)
    ensures Refreshable(today, a + b + c)
  {
    var all := a + b + c;
    forall k | 0 <= k < |all|
      ensures IsApart(all[k])
    {
      assert all[k] == if k < |a| then a[k] else if k < |a| + |b| then b[k - |a|] else c[k - |a| - |b|];
    }
  }

  /** The six headings the program writes, in its order, are no obstacle: it is enough that
      no line of the rendered texts is a heading of a manual section's name. */
  lemma ProgramsSectionsAreRefreshable(today: string, loops: string, review: string, contradictions: string,
                                       stale: string, relearn: string, evals: string)
    requires Unbroken(today) && IsHarmless(loops) && IsHarmless(review) && IsHarmless(contradictions)
    requires IsHarmless(stale) && IsHarmless(relearn) && IsHarmless(evals)
    ensures Refreshable(today, WorkAutos(loops, review) + TrustAutos(contradictions, stale)
                        + QueueAutos(relearn, evals))
  {
    WorkApart(loops, review);
    TrustApart(contradictions, stale);
    QueueApart(relearn, evals);
    PartsAreRefreshable(today, WorkAutos(loops, review), TrustAutos(contradictions, stale), QueueAutos(relearn, evals));
  }

  // ------------------------------------------------------------------------- the file

  class Vault {
    var active: Option<string>

    constructor (active: Option<string>)
      ensures this.active == active
    {
      this.active := active;
    }

    method RefreshActive(today: string, autos: seq<Auto>)
      modifies this
      ensures active == Some(Refresh(old(active), today, autos))
    {
      var sections: map<string, string> := map[];
      if active.Some? {
        sections := SplitSections(active.value);
      }
      var focus := StripOr(if FOCUS in sections then sections[FOCUS] else DEFAULT_FOCUS, DEFAULT_FOCUS);
      var loops := StripOr(if LOOPS in sections then sections[LOOPS] else DEFAULT_LOOPS, DEFAULT_LOOPS);
      active := Some(Print(today, focus, loops, autos));
    }
  }
}
