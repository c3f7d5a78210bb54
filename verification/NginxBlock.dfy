/** Taking the stock default server out of nginx.conf by counting braces. */
module NginxBlock {
  import opened Wrappers
  import opened Text

  const REMOVED_NOTE := MANAGED_MARKER + " -- stock default server " + "removed; see conf.d/dsr.conf"

  // ---- what the code looks at in a line ---------------------------------------------------

  predicate IsWordChar(c: char) { 'a' <= c <= 'z' || 'A' <= c <= 'Z' || '0' <= c <= '9' || c == '_' }

  predicate OpensServerBlock(line: string) {
    var stripped := Trim(line);
    && "server" <= stripped
    && (|stripped| > 6 ==> !IsWordChar(stripped[6]))
    && var remainder := Trim(stripped[6..]);
       remainder == "" || (remainder[0] == '{' && remainder[|remainder| - 1] != ';')
  }

  /** What follows the word decides: nothing, or a brace that no semicolon ends. */
  lemma OpensExactly(line: string, rest: string)
    requires Trim(line) == "server" + rest
    ensures OpensServerBlock(line)
            <==> && (rest == "" || !IsWordChar(rest[0]))
                 && (Trim(rest) == "" || (Trim(rest)[0] == '{' && Trim(rest)[|Trim(rest)| - 1] != ';'))
  {
    assert ("server" + rest)[6..] == rest;
  }

  /** The word alone on its line opens a block, however it is indented. */
  lemma ServerAloneOpens(before: string, after: string)
    requires Blank(before) && Blank(after)
    ensures OpensServerBlock(before + "server" + after)
  {
    assert before + "server" + after == before + ("server" + after);
    TrimLeftSkips(before, "server" + after);
    TrimRightAppend("server", after);
    BlankTrims(after);
    assert "server" + "" == "server";
    OpensExactly(before + "server" + after, "");
  }

  /** And nothing else does but a line that begins with it. */
  lemma OnlyServerOpens(line: string)
    requires OpensServerBlock(line)
    ensures "server" <= Trim(line)
  {
  }

  function Indent(line: string): string { line[..|line| - |TrimLeft(line)|] }

  function NoteText(opener: string): string { Indent(opener) + REMOVED_NOTE }

  /** A line with all the code reads off it: brace count, braces, opener, the words it looks for. */
  datatype Line = Line(text: string, net: int, brace: bool, opens: bool, stock: bool)

  function Look(text: string): Line {
    Line(text, CountOf(text, '{') - CountOf(text, '}'), '{' in text, OpensServerBlock(text),
         Contains(text, "default_server"))
  }

  function LookAll(texts: seq<string>): (r: seq<Line>)
    ensures |r| == |texts| && forall i :: 0 <= i < |r| ==> r[i] == Look(texts[i])
  {
    if texts == [] then [] else [Look(texts[0])] + LookAll(texts[1..])
  }

  function TextsOf(lines: seq<Line>): (r: seq<string>)
    ensures |r| == |lines| && forall i :: 0 <= i < |r| ==> r[i] == lines[i].text
  {
    if lines == [] then [] else [lines[0].text] + TextsOf(lines[1..])
  }

  predicate AnyStock(lines: seq<Line>) { exists i :: 0 <= i < |lines| && lines[i].stock }

  function Depth(lines: seq<Line>): int { if lines == [] then 0 else lines[0].net + Depth(lines[1..]) }

  // ---- the scan from an opener ---------------------------------------------------------------

  /** How many lines until a brace has been seen and the count is back at zero. */
  function Scan(lines: seq<Line>, depth: int, seen: bool): (n: Option<nat>)
    ensures n.Some? ==> 0 < n.value <= |lines|
  {
    if lines == [] then None
    else
      var d, s := depth + lines[0].net, seen || lines[0].brace;
      if s && d == 0 then Some(1)
      else
        var rest := Scan(lines[1..], d, s);
        if rest.None? then None else Some(rest.value + 1)
  }

  /** The lines of the balanced server block that starts here and mentions default_server, if one does. */
  function StockBlock(lines: seq<Line>): (n: Option<nat>)
    ensures n.Some? ==> 0 < n.value <= |lines|
  {
    if lines == [] || !lines[0].opens then None
    else
      var n := Scan(lines, 0, false);
      if n.Some? && AnyStock(lines[..n.value]) then n else None
  }

  /** The comment that takes a block's place. */
  function Note(opener: Line): Line {
    Line(NoteText(opener.text), 0, false, false, false)
  }

  /** The rewritten lines: each stock block becomes one comment, every other line stays. */
  function Rewrite(lines: seq<Line>): seq<Line>
    decreases |lines|
  {
    if lines == [] then []
    else
      var n := StockBlock(lines);
      if n.Some? then [Note(lines[0])] + Rewrite(lines[n.value..])
      else [lines[0]] + Rewrite(lines[1..])
  }

  predicate Changes(lines: seq<Line>) { lines != [] && (StockBlock(lines).Some? || Changes(lines[1..])) }

  lemma RewriteBlock(lines: seq<Line>)
    requires StockBlock(lines).Some?
    ensures Rewrite(lines) == [Note(lines[0])] + Rewrite(lines[StockBlock(lines).value..])
    ensures Rewrite(lines)[0] == Note(lines[0]) && Rewrite(lines)[1..] == Rewrite(lines[StockBlock(lines).value..])
  {
  }

  lemma RewriteKept(lines: seq<Line>)
    requires lines != [] && StockBlock(lines).None?
    ensures Rewrite(lines) == [lines[0]] + Rewrite(lines[1..])
    ensures Rewrite(lines)[0] == lines[0] && Rewrite(lines)[1..] == Rewrite(lines[1..])
  {
  }

  // ---- the code's loops ------------------------------------------------------------------------

  method MeasureBlock(lines: seq<Line>, i: nat) returns (j: nat, balanced: bool)
    requires i < |lines|
    ensures i < j <= |lines|
    ensures balanced <==> Scan(lines[i..], 0, false).Some?
    ensures balanced ==> j == i + Scan(lines[i..], 0, false).value
  {
    var depth, seen := 0, false;
    j := i;
    while j < |lines|
      invariant i <= j <= |lines| && (j == |lines| ==> i < j)
      invariant j == i || !(seen && depth == 0)
      invariant Scan(lines[i..], 0, false).Some? <==> Scan(lines[j..], depth, seen).Some?
      invariant Scan(lines[j..], depth, seen).Some? ==>
                  Scan(lines[i..], 0, false).value == j - i + Scan(lines[j..], depth, seen).value
    {
      assert lines[j..][1..] == lines[j + 1..];
      depth := depth + lines[j].net;
      if lines[j].brace { seen := true; }
      j := j + 1;
      if seen && depth == 0 { return j, true; }
    }
    return j, seen && depth == 0;
  }

  /** Where the stock block that starts at line `i` ends, if one does. */
  method FindStockBlock(lines: seq<Line>, i: nat) returns (end: Option<nat>)
    requires i < |lines|
    ensures end.Some? <==> StockBlock(lines[i..]).Some?
    ensures end.Some? ==> end.value == i + StockBlock(lines[i..]).value
  {
    if !lines[i].opens { return None; }
    var j, balanced := MeasureBlock(lines, i);
    assert lines[i..][..j - i] == lines[i..j];
    if balanced && AnyStock(lines[i..j]) { return Some(j); }
    return None;
  }

  lemma AppendOne(out: seq<Line>, line: Line, rest: seq<Line>, whole: seq<Line>)
    requires out + ([line] + rest) == whole
    ensures out + [line] + rest == whole
  {
  }

  method RewriteLines(lines: seq<Line>) returns (out: seq<Line>, changed: bool)
    ensures out == Rewrite(lines) && (changed <==> Changes(lines))
  {
    out, changed := [], false;
    ghost var whole, any := Rewrite(lines), Changes(lines);
    var i := 0;
    assert lines[0..] == lines;
    while i < |lines|
      invariant 0 <= i <= |lines|
      invariant out + Rewrite(lines[i..]) == whole
      invariant changed || Changes(lines[i..]) <==> any
      decreases |lines| - i
    {
      assert lines[i..][1..] == lines[i + 1..];
      var end := FindStockBlock(lines, i);
      if end.Some? {
        assert lines[i..][end.value - i..] == lines[end.value..];
        AppendOne(out, Note(lines[i]), Rewrite(lines[end.value..]), whole);
        out := out + [Note(lines[i])];
        changed := true;
        i := end.value;
      } else {
        AppendOne(out, lines[i], Rewrite(lines[i + 1..]), whole);
        out := out + [lines[i]];
        i := i + 1;
      }
    }
  }

  function FileLines(text: string): seq<Line> { LookAll(SplitLines(text)) }

  function RewriteText(text: string): string {
    var lines := FileLines(text);
    if Contains(text, MANAGED_MARKER) || !Changes(lines) then text else Rejoin(TextsOf(Rewrite(lines)), text)
  }

  /** A file the tool has already edited is left alone. */
  method NeutraliseDefaultServer(text: string) returns (result: string, changed: bool)
    ensures changed <==> !Contains(text, MANAGED_MARKER) && Changes(FileLines(text))
    ensures result == RewriteText(text)
  {
    if Contains(text, MANAGED_MARKER) { return text, false; }
    var out;
    out, changed := RewriteLines(FileLines(text));
    result := if changed then Rejoin(TextsOf(out), text) else text;
  }

  lemma {:induction false} ChangedHasNote(lines: seq<Line>) returns (i: nat)
    requires Changes(lines)
    ensures i < |Rewrite(lines)| && Contains(Rewrite(lines)[i].text, MANAGED_MARKER)
    decreases |lines|
  {
    if StockBlock(lines).Some? {
      i := 0;
      var indent := Indent(lines[0].text);
      assert NoteText(lines[0].text)[|indent|..] == REMOVED_NOTE;
    } else {
      var j := ChangedHasNote(lines[1..]);
      i := j + 1;
    }
  }

  /** A file that was edited carries the marker, so a second run leaves it alone. */
  lemma SecondRunLeavesAlone(text: string)
    ensures RewriteText(RewriteText(text)) == RewriteText(text)
  {
    if RewriteText(text) != text {
      var lines := FileLines(text);
      var i := ChangedHasNote(lines);
      RejoinContains(TextsOf(Rewrite(lines)), text, i, MANAGED_MARKER);
    }
  }

  // ---- what is kept ----------------------------------------------------------------------------

  datatype Piece = Kept(line: Line) | Removed(opener: Line, rest: seq<Line>)

  function PieceLines(p: Piece): seq<Line> { match p case Kept(line) => [line] case Removed(o, rest) => [o] + rest }

  function PieceEdit(p: Piece): Line { match p case Kept(line) => line case Removed(o, _) => Note(o) }

  function Original(pieces: seq<Piece>): seq<Line> {
    if pieces == [] then [] else PieceLines(pieces[0]) + Original(pieces[1..])
  }

  function Edited(pieces: seq<Piece>): seq<Line> {
    if pieces == [] then [] else [PieceEdit(pieces[0])] + Edited(pieces[1..])
  }

  predicate AnyBrace(lines: seq<Line>) { lines != [] && (lines[0].brace || AnyBrace(lines[1..])) }

  /** A balanced server block that mentions default_server, and nothing beyond it. */
  ghost predicate IsStockBlock(block: seq<Line>) {
    && block != [] && block[0].opens && AnyStock(block)
    && Depth(block) == 0 && Scan(block, 0, false) == Some(|block|)
  }

  lemma {:induction false} ScanIsLocal(lines: seq<Line>, depth: int, seen: bool)
    requires Scan(lines, depth, seen).Some?
    ensures var n := Scan(lines, depth, seen).value;
            && Scan(lines[..n], depth, seen) == Some(n)
            && depth + Depth(lines[..n]) == 0
            && (seen || AnyBrace(lines[..n]))
  {
    var n := Scan(lines, depth, seen).value;
    var d, s := depth + lines[0].net, seen || lines[0].brace;
    assert lines[..n][1..] == lines[1..][..n - 1];
    if !(s && d == 0) {
      ScanIsLocal(lines[1..], d, s);
    } else {
      assert Depth(lines[..1][1..]) == 0;
    }
  }

  lemma OnePieceMore(p: Piece, rest: seq<Piece>)
    ensures Original([p] + rest) == PieceLines(p) + Original(rest)
    ensures Edited([p] + rest) == [PieceEdit(p)] + Edited(rest)
  {
    assert ([p] + rest)[1..] == rest;
  }

  ghost predicate IsFair(p: Piece) { p.Removed? ==> IsStockBlock([p.opener] + p.rest) }

  lemma BlockIsFair(lines: seq<Line>)
    requires StockBlock(lines).Some?
    ensures IsFair(Removed(lines[0], lines[1..StockBlock(lines).value]))
  {
    var n := StockBlock(lines).value;
    ScanIsLocal(lines, 0, false);
    assert [lines[0]] + lines[1..n] == lines[..n];
  }

  lemma SplitOff(lines: seq<Line>, n: nat)
    requires 0 < n <= |lines|
    ensures [lines[0]] + lines[1..n] + lines[n..] == lines
  {
  }

  /**
   * The result is the file with whole stock blocks replaced by a comment each:
   * every other line is kept, in order.
   */
  lemma {:induction false} KeepsEverythingElse(lines: seq<Line>) returns (pieces: seq<Piece>)
    ensures Original(pieces) == lines && Edited(pieces) == Rewrite(lines)
    ensures forall p :: p in pieces ==> IsFair(p)
    decreases |lines|
  {
    if lines == [] {
      pieces := [];
    } else {
      var n := if StockBlock(lines).Some? then StockBlock(lines).value else 1;
      var p := if StockBlock(lines).Some? then Removed(lines[0], lines[1..n]) else Kept(lines[0]);
      if StockBlock(lines).Some? { BlockIsFair(lines); }
      var rest := KeepsEverythingElse(lines[n..]);
      pieces := [p] + rest;
      OnePieceMore(p, rest);
      SplitOff(lines, n);
      assert PieceLines(p) == [lines[0]] + lines[1..n];
    }
  }

  // ---- the brace count --------------------------------------------------------------------------

  lemma {:induction false} DepthConcat(a: seq<Line>, b: seq<Line>)
    ensures Depth(a + b) == Depth(a) + Depth(b)
  {
    if a == [] {
      assert a + b == b;
    } else {
      DepthConcat(a[1..], b);
      assert (a + b)[1..] == a[1..] + b;
    }
  }

  /** The net brace depth of the file does not change. */
  lemma {:induction false} DepthIsKept(lines: seq<Line>)
    ensures Depth(Rewrite(lines)) == Depth(lines)
    decreases |lines|
  {
    if lines == [] {
    } else if StockBlock(lines).Some? {
      var n := StockBlock(lines).value;
      DepthIsKept(lines[n..]);
      ScanIsLocal(lines, 0, false);
      DepthConcat(lines[..n], lines[n..]);
      assert lines[..n] + lines[n..] == lines;
      RewriteBlock(lines);
    } else {
      DepthIsKept(lines[1..]);
      RewriteKept(lines);
    }
  }

  // ---- the comment is only a comment -------------------------------------------------------------

  lemma {:induction false} BlankIsAbsent(s: string, c: char)
    requires Blank(s) && !IsSpace(c)
    ensures c !in s
  {
    if s == "" {
    } else {
      BlankIsAbsent(s[1..], c);
      assert s == [s[0]] + s[1..];
    }
  }

  lemma {:induction false} IndentIsBlank(line: string)
    ensures Blank(Indent(line))
  {
    if line != "" && IsSpace(line[0]) {
      IndentIsBlank(line[1..]);
      assert Indent(line) == [line[0]] + Indent(line[1..]);
    }
  }

  lemma HashOpensNothing(indent: string, s: string)
    requires s != "" && s[0] == '#' && Blank(indent)
    ensures !OpensServerBlock(indent + s)
  {
    TrimLeftSkips(indent, s);
    TrimRightKeepsStart(s);
    assert Trim(indent + s)[0] == '#' && "server"[0] == 's';
  }

  lemma RemovedNoteHasNo(c: char)
    requires c == '{' || c == '}'
    ensures c !in REMOVED_NOTE
  {
    assert c !in MANAGED_MARKER;
    assert c !in " -- stock default server ";
    assert c !in "removed; see conf.d/dsr.conf";
  }

  lemma NoteHasNoBraces(opener: string)
    ensures '{' !in NoteText(opener)
    ensures CountOf(NoteText(opener), '{') == 0 && CountOf(NoteText(opener), '}') == 0
  {
    IndentIsBlank(opener);
    BlankIsAbsent(Indent(opener), '{');
    BlankIsAbsent(Indent(opener), '}');
    RemovedNoteHasNo('{');
    RemovedNoteHasNo('}');
    CountAbsent(NoteText(opener), '{');
    CountAbsent(NoteText(opener), '}');
  }

  lemma NoteOpensNothing(opener: string)
    ensures !OpensServerBlock(NoteText(opener))
  {
    IndentIsBlank(opener);
    HashOpensNothing(Indent(opener), REMOVED_NOTE);
  }

  lemma BeforeUnderscore(k: nat)
    requires k < |REMOVED_NOTE| && REMOVED_NOTE[k] == '_'
    ensures k > 0 && REMOVED_NOTE[k - 1] == 'r'
  {
    assert '_' !in " -- stock default server ";
    assert '_' !in "removed; see conf.d/dsr.conf";
    assert forall i :: 0 <= i < |MANAGED_MARKER| && MANAGED_MARKER[i] == '_' ==> i == 16;
  }

  lemma UnderscoreAfter(a: string, b: string, w: string)
    requires '_' !in a && forall i :: 0 <= i < |b| && b[i] == '_' ==> i > 0 && b[i - 1] == 'r'
    requires |w| > 7 && w[6] == 't' && w[7] == '_'
    ensures !Contains(a + b, w)
  {
    var s := a + b;
    forall p | 0 <= p <= |s| ensures !(w <= s[p..]) {
      assert p + 7 < |s| && s[p + 7] == '_' ==> s[p + 6] == 'r';
      if |w| <= |s[p..]| { assert s[p..][6] == s[p + 6] && s[p..][7] == s[p + 7]; }
    }
  }

  /** The note does not mention default_server: its one underscore follows another letter. */
  lemma NoteIsNotStock(opener: string)
    ensures !Contains(NoteText(opener), "default_server")
  {
    IndentIsBlank(opener);
    BlankIsAbsent(Indent(opener), '_');
    forall i | 0 <= i < |REMOVED_NOTE| && REMOVED_NOTE[i] == '_' ensures i > 0 && REMOVED_NOTE[i - 1] == 'r' {
      BeforeUnderscore(i);
    }
    UnderscoreAfter(Indent(opener), REMOVED_NOTE, "default_server");
  }

  /** The note, read again as a line of the file, is what the rewrite took it for. */
  lemma NoteReadsBack(opener: Line)
    ensures Look(NoteText(opener.text)) == Note(opener)
  {
    NoteHasNoBraces(opener.text);
    NoteOpensNothing(opener.text);
    NoteIsNotStock(opener.text);
  }

  predicate Read(line: Line) { line == Look(line.text) }

  ghost predicate Faithful(lines: seq<Line>) { forall l :: l in lines ==> Read(l) }

  lemma FaithfulCons(line: Line, rest: seq<Line>)
    requires Read(line) && Faithful(rest)
    ensures Faithful([line] + rest)
  {
  }

  lemma FaithfulLater(lines: seq<Line>, n: nat)
    requires Faithful(lines) && n <= |lines|
    ensures Faithful(lines[n..])
  {
  }

  /** Reading the result gives back the lines the rewrite made: a second pass sees what it left. */
  lemma {:induction false} RewriteIsFaithful(lines: seq<Line>)
    requires Faithful(lines)
    ensures Faithful(Rewrite(lines))
    decreases |lines|
  {
    if lines == [] {
    } else {
      if StockBlock(lines).Some? {
        var n := StockBlock(lines).value;
        NoteReadsBack(lines[0]);
        FaithfulLater(lines, n);
        RewriteIsFaithful(lines[n..]);
        FaithfulCons(Note(lines[0]), Rewrite(lines[n..]));
      } else {
        FaithfulLater(lines, 1);
        RewriteIsFaithful(lines[1..]);
        FaithfulCons(lines[0], Rewrite(lines[1..]));
      }
    }
  }

  // ---- no stock block is left -----------------------------------------------------------------------

  ghost predicate NoStockBlock(lines: seq<Line>) { forall i :: 0 <= i <= |lines| ==> StockBlock(lines[i..]).None? }

  /**
   * Counting braces over the lines the loop keeps, stock blocks left out, the
   * count comes back to zero after a line that mentions default_server.
   */
  predicate ClosesPastStock(lines: seq<Line>, depth: int, seen: bool, stock: bool)
    decreases |lines|
  {
    && lines != []
    && var n := StockBlock(lines);
       if n.Some? then ClosesPastStock(lines[n.value..], depth, seen, stock)
       else
         var d, s, t := depth + lines[0].net, seen || lines[0].brace, stock || lines[0].stock;
         if s && d == 0 then t else ClosesPastStock(lines[1..], d, s, t)
  }

  /** Some opener the loop keeps closes past a default_server once the stock blocks are out. */
  predicate LeavesOne(lines: seq<Line>)
    decreases |lines|
  {
    && lines != []
    && var n := StockBlock(lines);
       if n.Some? then LeavesOne(lines[n.value..])
       else (lines[0].opens && ClosesPastStock(lines, 0, false, false)) || LeavesOne(lines[1..])
  }

  lemma AnyStockCons(line: Line, rest: seq<Line>)
    ensures AnyStock([line] + rest) <==> line.stock || AnyStock(rest)
  {
    var lines := [line] + rest;
    if AnyStock(rest) {
      var i :| 0 <= i < |rest| && rest[i].stock;
      assert lines[i + 1].stock;
    }
    if line.stock { assert lines[0].stock; }
  }

  /** The scan closes, and a default_server is among the lines it took or already met. */
  predicate ScansPastStock(lines: seq<Line>, depth: int, seen: bool, stock: bool) {
    && Scan(lines, depth, seen).Some?
    && (stock || AnyStock(lines[..Scan(lines, depth, seen).value]))
  }

  lemma ScansOneMore(lines: seq<Line>, depth: int, seen: bool, stock: bool)
    requires lines != []
    ensures ScansPastStock(lines, depth, seen, stock)
            <==> var d, s, t := depth + lines[0].net, seen || lines[0].brace, stock || lines[0].stock;
                 if s && d == 0 then t else ScansPastStock(lines[1..], d, s, t)
  {
    if Scan(lines, depth, seen).Some? {
      var n := Scan(lines, depth, seen).value;
      assert lines[..n] == [lines[0]] + lines[1..][..n - 1];
      AnyStockCons(lines[0], lines[1..][..n - 1]);
    }
  }

  lemma ClosesPastBlock(out: seq<Line>, lines: seq<Line>, depth: int, seen: bool, stock: bool)
    requires StockBlock(lines).Some? && out != [] && out[0] == Note(lines[0]) && !(seen && depth == 0)
    requires ScansPastStock(out[1..], depth, seen, stock)
             <==> ClosesPastStock(lines[StockBlock(lines).value..], depth, seen, stock)
    ensures ScansPastStock(out, depth, seen, stock) <==> ClosesPastStock(lines, depth, seen, stock)
  {
    ScansOneMore(out, depth, seen, stock);
  }

  lemma ClosesPastKept(out: seq<Line>, lines: seq<Line>, depth: int, seen: bool, stock: bool)
    requires lines != [] && StockBlock(lines).None? && out != [] && out[0] == lines[0]
    requires var d, s, t := depth + lines[0].net, seen || lines[0].brace, stock || lines[0].stock;
             (s && d == 0) || (ScansPastStock(out[1..], d, s, t) <==> ClosesPastStock(lines[1..], d, s, t))
    ensures ScansPastStock(out, depth, seen, stock) <==> ClosesPastStock(lines, depth, seen, stock)
  {
    ScansOneMore(out, depth, seen, stock);
  }

  /** What the scan meets in the rewritten lines, told from the lines as they were. */
  lemma {:induction false} ScanOfRewrite(lines: seq<Line>, depth: int, seen: bool, stock: bool)
    requires !(seen && depth == 0)
    ensures ScansPastStock(Rewrite(lines), depth, seen, stock) <==> ClosesPastStock(lines, depth, seen, stock)
    decreases |lines|
  {
    if lines == [] {
    } else if StockBlock(lines).Some? {
      ScanOfRewrite(lines[StockBlock(lines).value..], depth, seen, stock);
      RewriteBlock(lines);
      ClosesPastBlock(Rewrite(lines), lines, depth, seen, stock);
    } else {
      var d, s, t := depth + lines[0].net, seen || lines[0].brace, stock || lines[0].stock;
      if !(s && d == 0) { ScanOfRewrite(lines[1..], d, s, t); }
      RewriteKept(lines);
      ClosesPastKept(Rewrite(lines), lines, depth, seen, stock);
    }
  }

  lemma NoStockBlockCons(line: Line, rest: seq<Line>)
    ensures NoStockBlock([line] + rest) <==> StockBlock([line] + rest).None? && NoStockBlock(rest)
  {
    var lines := [line] + rest;
    assert lines[0..] == lines;
    assert forall i :: 0 <= i <= |rest| ==> lines[i + 1..] == rest[i..];
    forall i | 0 <= i <= |lines| && StockBlock(lines).None? && NoStockBlock(rest)
      ensures StockBlock(lines[i..]).None?
    {
      if i > 0 { assert lines[i..] == rest[i - 1..]; }
    }
    forall i | 0 <= i <= |rest| && NoStockBlock(lines) ensures StockBlock(rest[i..]).None? {
      assert lines[i + 1..] == rest[i..];
    }
  }

  /** The result holds a balanced stock block exactly when a kept opener closes past a default_server. */
  lemma {:induction false} NoneIsLeft(lines: seq<Line>)
    ensures NoStockBlock(Rewrite(lines)) <==> !LeavesOne(lines)
    decreases |lines|
  {
    if lines == [] {
    } else if StockBlock(lines).Some? {
      var rest := lines[StockBlock(lines).value..];
      NoneIsLeft(rest);
      NoStockBlockCons(Note(lines[0]), Rewrite(rest));
    } else {
      NoneIsLeft(lines[1..]);
      NoStockBlockCons(lines[0], Rewrite(lines[1..]));
      ScanOfRewrite(lines, 0, false, false);
    }
  }

  /** The loop finds nothing exactly when no position starts a stock block, and then changes nothing. */
  lemma {:induction false} NothingToRewrite(lines: seq<Line>)
    ensures NoStockBlock(lines) <==> !Changes(lines)
    ensures Rewrite(lines) == lines <==> !Changes(lines)
  {
    if lines == [] {
    } else {
      NothingToRewrite(lines[1..]);
      assert lines == [lines[0]] + lines[1..];
      NoStockBlockCons(lines[0], lines[1..]);
      if StockBlock(lines).Some? {
        assert Rewrite(lines)[0] == Note(lines[0]) != lines[0];
      } else {
        assert Rewrite(lines)[1..] == Rewrite(lines[1..]);
      }
    }
  }

  /** A second pass, even without the marker check, finds nothing to do in the same files. */
  lemma SecondPassDoesNothing(lines: seq<Line>)
    ensures Rewrite(Rewrite(lines)) == Rewrite(lines) <==> !LeavesOne(lines)
    ensures Changes(Rewrite(lines)) <==> LeavesOne(lines)
  {
    NoneIsLeft(lines);
    NothingToRewrite(Rewrite(lines));
  }

  // ---- files whose blocks nest -------------------------------------------------------------------------

  /**
   * A stock block starts inside another server block, one without
   * default_server, and ends after it.
   */
  ghost predicate CrossesAt(lines: seq<Line>, k: nat) {
    && lines != [] && lines[0].opens
    && var n := Scan(lines, 0, false);
       && n.Some? && k < n.value && !AnyStock(lines[..n.value])
       && StockBlock(lines[k..]).Some? && k + StockBlock(lines[k..]).value > n.value
  }

  ghost predicate NoCrossing(lines: seq<Line>) {
    forall i, k :: 0 <= i <= |lines| && 0 <= k ==> !CrossesAt(lines[i..], k)
  }

  lemma NoCrossingLater(lines: seq<Line>, j: nat)
    requires NoCrossing(lines) && j <= |lines|
    ensures NoCrossing(lines[j..])
  {
    forall i, k | 0 <= i <= |lines| - j && 0 <= k ensures !CrossesAt(lines[j..][i..], k) {
      assert lines[j..][i..] == lines[j + i..];
    }
  }

  lemma {:induction false} SeenOnlyHelps(lines: seq<Line>, depth: int)
    requires Scan(lines, depth, true).None?
    ensures Scan(lines, depth, false).None?
  {
    if lines == [] || lines[0].brace {
    } else {
      SeenOnlyHelps(lines[1..], depth + lines[0].net);
    }
  }

  lemma {:induction false} SkipAhead(lines: seq<Line>, n: nat, depth: int, seen: bool)
    requires n <= |lines| && Scan(lines, depth, seen).None?
    ensures Scan(lines[n..], depth + Depth(lines[..n]), seen || AnyBrace(lines[..n])).None?
  {
    if n == 0 {
    } else {
      SkipAhead(lines[1..], n - 1, depth + lines[0].net, seen || lines[0].brace);
      assert lines[..n][1..] == lines[1..][..n - 1] && lines[1..][n - 1..] == lines[n..];
    }
  }

  /** A server block that never closes does not close with stock blocks left out. */
  lemma {:induction false} UnbalancedNeverCloses(lines: seq<Line>, depth: int, seen: bool, stock: bool)
    requires Scan(lines, depth, seen).None?
    ensures !ClosesPastStock(lines, depth, seen, stock)
    decreases |lines|
  {
    if lines == [] {
    } else if StockBlock(lines).Some? {
      var n := StockBlock(lines).value;
      ScanIsLocal(lines, 0, false);
      SkipAhead(lines, n, depth, seen);
      SeenOnlyHelps(lines[n..], depth);
      UnbalancedNeverCloses(lines[n..], depth, seen, stock);
    } else {
      UnbalancedNeverCloses(lines[1..], depth + lines[0].net, seen || lines[0].brace, stock || lines[0].stock);
    }
  }

  /** A block that no stock block starts in, and that mentions no default_server, closes past none. */
  lemma {:induction false} PlainBlockClosesPlain(lines: seq<Line>, depth: int, seen: bool)
    requires Scan(lines, depth, seen).Some? && !AnyStock(lines[..Scan(lines, depth, seen).value])
    requires forall k :: 0 <= k < Scan(lines, depth, seen).value ==> StockBlock(lines[k..]).None?
    ensures !ClosesPastStock(lines, depth, seen, false)
  {
    var d, s, n := depth + lines[0].net, seen || lines[0].brace, Scan(lines, depth, seen).value;
    assert lines[0..] == lines && !lines[..n][0].stock;
    if s && d == 0 {
    } else {
      assert lines[..n][1..] == lines[1..][..n - 1];
      forall k | 0 <= k < n - 1 ensures StockBlock(lines[1..][k..]).None? {
        assert lines[1..][k..] == lines[k + 1..];
      }
      PlainBlockClosesPlain(lines[1..], d, s);
    }
  }

  lemma ShorterBlockIsInside(lines: seq<Line>, n: nat, k: nat)
    requires k < n <= |lines| && StockBlock(lines[k..]).Some? && k + StockBlock(lines[k..]).value <= n
    ensures AnyStock(lines[..n])
  {
    var m := StockBlock(lines[k..]).value;
    var i :| 0 <= i < |lines[k..][..m]| && lines[k..][..m][i].stock;
    assert lines[..n][k + i].stock;
  }

  lemma NoneStartsInside(lines: seq<Line>, k: nat)
    requires lines != [] && lines[0].opens && Scan(lines, 0, false).Some? && k < Scan(lines, 0, false).value
    requires !AnyStock(lines[..Scan(lines, 0, false).value]) && !CrossesAt(lines, k)
    ensures StockBlock(lines[k..]).None?
  {
    if StockBlock(lines[k..]).Some? { ShorterBlockIsInside(lines, Scan(lines, 0, false).value, k); }
  }

  /** Files where no stock block crosses a plain one are among the good ones. */
  lemma {:induction false} NestedLeavesNone(lines: seq<Line>)
    requires NoCrossing(lines)
    ensures !LeavesOne(lines) && NoStockBlock(Rewrite(lines))
    decreases |lines|
  {
    NoneIsLeft(lines);
    if lines == [] {
    } else if StockBlock(lines).Some? {
      NoCrossingLater(lines, StockBlock(lines).value);
      NestedLeavesNone(lines[StockBlock(lines).value..]);
    } else {
      NoCrossingLater(lines, 1);
      NestedLeavesNone(lines[1..]);
      if lines[0].opens && Scan(lines, 0, false).None? {
        UnbalancedNeverCloses(lines, 0, false, false);
      } else if lines[0].opens {
        assert lines[0..] == lines;
        forall k | 0 <= k < Scan(lines, 0, false).value ensures StockBlock(lines[k..]).None? {
          NoneStartsInside(lines, k);
        }
        PlainBlockClosesPlain(lines, 0, false);
      }
    }
  }

  // ---- the file itself ---------------------------------------------------------------------------------

  lemma LookBack(lines: seq<Line>)
    requires Faithful(lines)
    ensures LookAll(TextsOf(lines)) == lines
  {
    forall i | 0 <= i < |lines| ensures LookAll(TextsOf(lines))[i] == lines[i] {
      assert Read(lines[i]);
    }
  }

  ghost predicate OneLineEach(lines: seq<Line>) { forall l :: l in lines ==> '\n' !in l.text }

  lemma NoteIsOneLine(opener: string)
    requires '\n' !in opener
    ensures '\n' !in NoteText(opener) && NoteText(opener) != ""
  {
    assert '\n' !in MANAGED_MARKER;
    assert '\n' !in " -- stock default server ";
    assert '\n' !in "removed; see conf.d/dsr.conf";
  }

  ghost predicate FileShaped(lines: seq<Line>, ended: bool) {
    lines != [] && OneLineEach(lines) && (ended || lines[|lines| - 1].text != "")
  }

  lemma FileShapedLater(lines: seq<Line>, n: nat, ended: bool)
    requires FileShaped(lines, ended) && n < |lines|
    ensures FileShaped(lines[n..], ended)
  {
  }

  lemma FileShapedCons(line: Line, rest: seq<Line>, ended: bool)
    requires '\n' !in line.text && if rest == [] then ended || line.text != "" else FileShaped(rest, ended)
    ensures FileShaped([line] + rest, ended)
  {
    assert OneLineEach(rest);
    var lines := [line] + rest;
    assert rest != [] ==> lines[|lines| - 1] == rest[|rest| - 1];
  }

  /** The rewritten lines are lines, and the last is not empty if it was not. */
  lemma {:induction false} RewriteIsLines(lines: seq<Line>, ended: bool)
    requires FileShaped(lines, ended)
    ensures FileShaped(Rewrite(lines), ended)
    decreases |lines|
  {
    var n, first := 1, lines[0];
    if StockBlock(lines).Some? {
      n, first := StockBlock(lines).value, Note(lines[0]);
      RewriteBlock(lines);
      NoteIsOneLine(lines[0].text);
    } else {
      RewriteKept(lines);
    }
    if n == |lines| {
      assert lines[n..] == [];
    } else {
      FileShapedLater(lines, n, ended);
      RewriteIsLines(lines[n..], ended);
    }
    FileShapedCons(first, Rewrite(lines[n..]), ended);
  }

  lemma FileLinesShaped(text: string)
    requires text != ""
    ensures FileShaped(FileLines(text), EndsLine(text)) && Faithful(FileLines(text))
  {
    LastLine(text);
    var texts, lines := SplitLines(text), FileLines(text);
    forall l | l in lines ensures '\n' !in l.text && Read(l) {
      var i :| 0 <= i < |lines| && lines[i] == l;
      assert texts[i] in texts;
    }
  }

  lemma WrittenReadsBack(lines: seq<Line>, text: string)
    requires FileShaped(lines, EndsLine(text)) && Faithful(lines)
    ensures FileLines(Rejoin(TextsOf(lines), text)) == lines
  {
    var texts := TextsOf(lines);
    forall t | t in texts ensures '\n' !in t {
      var i :| 0 <= i < |texts| && texts[i] == t;
      assert lines[i] in lines;
    }
    SplitRejoin(texts, text);
    LookBack(lines);
  }

  /** An edited file reads back as the rewritten lines. */
  lemma FileIsTheRewrite(text: string)
    requires !Contains(text, MANAGED_MARKER)
    ensures FileLines(RewriteText(text)) == Rewrite(FileLines(text))
  {
    var lines := FileLines(text);
    if !Changes(lines) {
      NothingToRewrite(lines);
    } else {
      FileLinesShaped(text);
      RewriteIsLines(lines, EndsLine(text));
      RewriteIsFaithful(lines);
      WrittenReadsBack(Rewrite(lines), text);
    }
  }

  /** The net brace depth of the file does not change. */
  lemma FileDepthIsKept(text: string)
    ensures Depth(FileLines(RewriteText(text))) == Depth(FileLines(text))
  {
    if !Contains(text, MANAGED_MARKER) {
      FileIsTheRewrite(text);
      DepthIsKept(FileLines(text));
    }
  }

  /** A file not edited before comes out with a stock block exactly when it leaves one. */
  lemma NoneIsLeftInFile(text: string)
    requires !Contains(text, MANAGED_MARKER)
    ensures NoStockBlock(FileLines(RewriteText(text))) <==> !LeavesOne(FileLines(text))
    ensures Changes(FileLines(RewriteText(text))) <==> LeavesOne(FileLines(text))
  {
    FileIsTheRewrite(text);
    NoneIsLeft(FileLines(text));
    SecondPassDoesNothing(FileLines(text));
  }

  // ---- where one is left -------------------------------------------------------------------------------

  lemma ThreeLineScan(a: Line, b: Line, c: Line, rest: seq<Line>)
    requires a.brace && a.net != 0 && a.net + b.net != 0 && a.net + b.net + c.net == 0
    ensures Scan([a, b, c] + rest, 0, false) == Some(3)
  {
    var lines := [a, b, c] + rest;
    assert lines[1..] == [b, c] + rest && lines[1..][1..] == [c] + rest;
    assert Scan([c] + rest, a.net + b.net, true) == Some(1);
    assert Scan([b, c] + rest, a.net, true) == Some(2);
  }

  ghost predicate Crossing(o: Line, c: Line, s: Line, l: Line) {
    && o.opens && o.brace && o.net == 1 && !o.stock && c.net == -2 && !c.stock
    && s.net == 1 && s.stock && !l.opens && l.net == -1 && l.stock
  }

  /** Every file of this shape leaves one. */
  lemma CrossingShape(o: Line, c: Line, s: Line, l: Line)
    requires Crossing(o, c, s, l)
    ensures LeavesOne([o, o, c, s, l])
  {
    var lines := [o, o, c, s, l];
    assert lines == [o, o, c] + [s, l];
    ThreeLineScan(o, o, c, [s, l]);
    assert !AnyStock(lines[..3]);
    assert StockBlock(lines).None?;
    var inner := [o, c, s] + [l];
    assert lines[1..] == inner;
    ThreeLineScan(o, c, s, [l]);
    assert inner[..3][2].stock && inner[3..] == [l];
    assert ClosesPastStock([l], 1, true, false);
    assert ClosesPastStock(inner, 1, true, false);
  }

  lemma CrossingLines(lines: seq<Line>)
    requires |lines| == 5 && lines[0] == lines[1] && Crossing(lines[0], lines[2], lines[3], lines[4])
    ensures LeavesOne(lines)
  {
    CrossingShape(lines[0], lines[2], lines[3], lines[4]);
    assert lines == [lines[0], lines[0], lines[2], lines[3], lines[4]];
  }

  lemma WithoutHash(text: string)
    requires '#' !in text
    ensures !Contains(text, MANAGED_MARKER)
  {
    forall p | 0 <= p <= |text| ensures !(MANAGED_MARKER <= text[p..]) {
      assert MANAGED_MARKER[0] == '#';
    }
  }

  ghost predicate PlainText(text: string) { text != "" && '#' !in text && '\n' !in text }

  ghost predicate PlainTexts(texts: seq<string>) {
    texts != [] && forall i :: 0 <= i < |texts| ==> PlainText(texts[i])
  }

  lemma PlainFile(texts: seq<string>)
    requires PlainTexts(texts)
    ensures SplitLines(JoinLines(texts)) == texts && !Contains(JoinLines(texts), MANAGED_MARKER)
  {
    assert Rejoin(texts, "") == JoinLines(texts);
    assert forall t :: t in texts ==> PlainText(t);
    SplitRejoin(texts, "");
    JoinLacks(texts, '#');
    WithoutHash(JoinLines(texts));
  }

  ghost predicate CrossingTexts(texts: seq<string>) {
    && PlainTexts(texts) && |texts| == 5 && texts[0] == texts[1]
    && Crossing(Look(texts[0]), Look(texts[2]), Look(texts[3]), Look(texts[4]))
  }

  /** The text is these lines, and the rewrite leaves a stock block in it. */
  ghost predicate LeftInFile(texts: seq<string>, text: string) {
    SplitLines(text) == texts && !NoStockBlock(FileLines(RewriteText(text)))
  }

  /** A file of that shape is one the code can read, and it leaves one. */
  lemma CrossingFile(texts: seq<string>)
    requires CrossingTexts(texts)
    ensures LeftInFile(texts, JoinLines(texts))
  {
    PlainFile(texts);
    var lines := FileLines(JoinLines(texts));
    CrossingLines(lines);
    NoneIsLeftInFile(JoinLines(texts));
  }

  lemma ServerOpens()
    ensures OpensServerBlock("server {")
  {
    var line := "server {";
    assert TrimLeft(line) == line && TrimRight(line) == line;
    assert line[6..] == " {" && " {"[1..] == "{";
    assert TrimLeft(" {") == "{" && TrimRight("{") == "{";
  }

  lemma OneBrace(a: string, c: char, b: string)
    requires c !in a && c !in b
    ensures CountOf(a + [c] + b, c) == 1
  {
    CountConcat(a + [c], b, c);
    CountConcat(a, [c], c);
    CountAbsent(a, c);
    CountAbsent(b, c);
    assert [c][..0] == "";
  }

  lemma ShortIsNotStock(line: string)
    requires |line| < 14
    ensures !Contains(line, "default_server")
  {
  }

  lemma OpenerReads(line: string, a: string)
    requires line == a + "{" && '{' !in a && '}' !in a && |line| < 14
    ensures Look(line).brace && Look(line).net == 1 && !Look(line).stock
  {
    OneBrace(a, '{', "");
    assert a + "{" + "" == line && line[|a|] == '{';
    CountAbsent(line, '}');
    ShortIsNotStock(line);
  }

  lemma CloserReads(line: string)
    requires line == "}}"
    ensures Look(line).net == -2 && !Look(line).stock
  {
    CountAbsent(line, '{');
    CountConcat("}", "}", '}');
    assert "}" + "}" == line && "}"[..0] == "";
    ShortIsNotStock(line);
  }

  lemma StockReads(line: string, a: string, c: char, b: string, word: string)
    requires line == a + [c] + b && (c == '{' || c == '}')
    requires '{' !in a + b && '}' !in a + b && (word == a || word == b) && Contains(word, "default_server")
    ensures Look(line).net == (if c == '{' then 1 else -1) && Look(line).stock
  {
    OneBrace(a, c, b);
    CountAbsent(line, if c == '{' then '}' else '{');
    if word == a {
      ContainsIn(a, "", [c] + b, "default_server");
      assert "" + a + ([c] + b) == line;
    } else {
      ContainsIn(b, a + [c], "", "default_server");
      assert a + [c] + b + "" == line;
    }
  }

  /** What the example needs of the word. */
  ghost predicate WordLike(word: string) {
    && word != "" && word[0] == 'd' && Contains(word, "default_server")
    && '{' !in word && '}' !in word && '#' !in word && '\n' !in word
  }

  lemma WordIsWordLike(word: string)
    requires word == "default_server"
    ensures WordLike(word)
  {
    assert word[0..] == word;
  }

  lemma WordContains(before: string, word: string, after: string)
    requires Contains(word, "default_server")
    ensures Contains(before + word + after, "default_server")
  {
    ContainsIn(word, before, after, "default_server");
  }

  lemma StockOpenerReads(line: string, b: string)
    requires line == "{" + b && Contains(b, "default_server")
    requires '{' !in b && '}' !in b
    ensures Look(line).net == 1 && Look(line).stock
  {
    var a: string := [];
    assert a + b == b && a + ['{'] + b == line;
    StockReads(line, a, '{', b, b);
  }

  lemma StockCloserReads(line: string, word: string)
    requires line == word + " }" && WordLike(word)
    ensures Look(line).net == -1 && Look(line).stock && !Look(line).opens
    ensures '#' !in line && '\n' !in line && line != ""
  {
    var a := word + " ";
    WordContains("", word, " ");
    assert "" + word + " " == a && a + "}" + "" == line && a + "" == a;
    StockReads(line, a, '}', "", a);
    assert line[0] == 'd' && TrimLeft(line) == line;
  }

  lemma CrossingIsPlain(word: string, o: string, c: string, s: string, l: string)
    requires WordLike(word) && o == "server {" && c == "}}" && s == "{ " + word && l == word + " }"
    ensures PlainText(o) && PlainText(c) && PlainText(s) && PlainText(l)
  {
  }

  lemma CrossingLooks(word: string, o: string, c: string, s: string, l: string)
    requires WordLike(word) && o == "server {" && c == "}}" && s == "{ " + word && l == word + " }"
    ensures Crossing(Look(o), Look(c), Look(s), Look(l))
  {
    ServerOpens();
    OpenerReads(o, "server ");
    CloserReads(c);
    WordContains(" ", word, "");
    assert " " + word + "" == " " + word && s == "{" + (" " + word);
    StockOpenerReads(s, " " + word);
    StockCloserReads(l, word);
  }

  lemma CrossingOn(word: string, texts: seq<string>)
    requires WordLike(word) && |texts| == 5 && texts[0] == texts[1] == "server {" && texts[2] == "}}"
    requires texts[3] == "{ " + word && texts[4] == word + " }"
    ensures CrossingTexts(texts)
  {
    CrossingLooks(word, texts[0], texts[2], texts[3], texts[4]);
    CrossingIsPlain(word, texts[0], texts[2], texts[3], texts[4]);
  }

  /**
   * Such a file: the inner block takes the outer one's closing braces with it,
   * and the outer then runs on into a default_server.
   */
  lemma CrossingLeavesOne(word: string, texts: seq<string>)
    requires word == "default_server" && |texts| == 5 && texts[0] == texts[1] == "server {" && texts[2] == "}}"
    requires texts[3] == "{ " + word && texts[4] == word + " }"
    ensures LeftInFile(texts, JoinLines(texts))
  {
    WordIsWordLike(word);
    CrossingOn(word, texts);
    CrossingFile(texts);
  }
}
