/** How a value travels: quoted for a shell, sourced by one, written to a .env line and read back. */
module ShellEnv {
  import opened Wrappers
  import opened Text

  // ---- quoting ------------------------------------------------------------------------------

  /** Each apostrophe closes the quote, comes escaped, and reopens it. */
  function Escape(v: string): string {
    if v == "" then "" else (if v[0] == '\'' then "'\\''" else [v[0]]) + Escape(v[1..])
  }

  function ShellQuote(v: string): string { "'" + Escape(v) + "'" }

  // ---- a shell reading a word (POSIX.1-2017, Shell Command Language, 2.2.1 and 2.2.2) ---------

  /** Within single quotes every character is literal up to the closing quote. */
  function ReadSingle(s: string): (r: Option<(string, string)>)
    ensures r.Some? ==> |r.value.1| < |s|
  {
    if s == "" then None
    else if s[0] == '\'' then Some(("", s[1..]))
    else
      var r := ReadSingle(s[1..]);
      if r.None? then None else Some(([s[0]] + r.value.0, r.value.1))
  }

  /** Characters that, unquoted, mean something to the shell; a word holding one is not modelled. */
  predicate IsActive(c: char) { IsSpace(c) || c in "|&;<>()$`\"*?[#~=%" }

  function Prepend(a: string, r: Option<(string, string)>): Option<(string, string)> {
    if r.None? then None else Some((a + r.value.0, r.value.1))
  }

  /** The word at the start of `s`, up to the end of its line. */
  function ReadWord(s: string): (r: Option<(string, string)>)
    ensures r.Some? ==> |r.value.1| <= |s| && (r.value.1 == "" || r.value.1[0] == '\n')
    decreases |s|
  {
    if s == "" || s[0] == '\n' then Some(("", s))
    else if s[0] == '\'' then
      var q := ReadSingle(s[1..]);
      if q.None? then None else Prepend(q.value.0, ReadWord(q.value.1))
    else if s[0] == '\\' then
      if |s| == 1 then None
      else if s[1] == '\n' then ReadWord(s[2..])
      else Prepend([s[1]], ReadWord(s[2..]))
    else if IsActive(s[0]) then None
    else Prepend([s[0]], ReadWord(s[1..]))
  }

  /** What is left of a quoted word once its opening quote is read. */
  function ReadRest(s: string): Option<(string, string)> {
    var q := ReadSingle(s);
    if q.None? then None else Prepend(q.value.0, ReadWord(q.value.1))
  }

  lemma EndReadsBack(rest: string)
    requires rest == "" || rest[0] == '\n'
    ensures ReadRest("'" + rest) == Some(("", rest))
  {
    assert ("'" + rest)[1..] == rest;
    assert ReadWord(rest) == Some(("", rest)) && "" + "" == "";
  }

  lemma {:induction false} EscapeReadsBack(v: string, rest: string)
    requires rest == "" || rest[0] == '\n'
    ensures ReadRest(Escape(v) + ("'" + rest)) == Some((v, rest))
  {
    if v == "" {
      EndReadsBack(rest);
      assert Escape(v) + ("'" + rest) == "'" + rest;
    } else {
      var tail := Escape(v[1..]) + ("'" + rest);
      EscapeReadsBack(v[1..], rest);
      if v[0] == '\'' {
        ApostropheReadsBack(tail, v[1..], rest);
      } else {
        PlainReadsBack(v[0], tail, v[1..], rest);
      }
      Associate(if v[0] == '\'' then "'\\''" else [v[0]], Escape(v[1..]), "'" + rest);
      assert [v[0]] + v[1..] == v;
    }
  }

  lemma Associate(a: string, b: string, c: string)
    ensures a + b + c == a + (b + c)
  {
  }

  lemma PlainReadsBack(c: char, tail: string, v: string, rest: string)
    requires c != '\'' && ReadRest(tail) == Some((v, rest))
    ensures ReadRest([c] + tail) == Some(([c] + v, rest))
  {
    var q := ReadSingle(tail);
    assert ([c] + tail)[1..] == tail;
    assert [c] + (q.value.0 + ReadWord(q.value.1).value.0) == [c] + q.value.0 + ReadWord(q.value.1).value.0;
  }

  lemma ApostropheReadsBack(tail: string, v: string, rest: string)
    requires ReadRest(tail) == Some((v, rest))
    ensures ReadRest("'\\''" + tail) == Some((['\''] + v, rest))
  {
    var s := "'\\''" + tail;
    var closed := "\\''" + tail;
    assert s[1..] == closed;
    assert closed[2..] == "'" + tail && ("'" + tail)[1..] == tail;
    assert ReadWord("'" + tail) == ReadRest(tail);
    assert ReadWord(closed) == Prepend(['\''], ReadRest(tail));
    assert "" + (['\''] + v) == ['\''] + v;
  }

  /** Un-quoting is the identity on every string, apostrophes and newlines included. */
  lemma QuoteReadsBack(v: string, rest: string)
    requires rest == "" || rest[0] == '\n'
    ensures ReadWord(ShellQuote(v) + rest) == Some((v, rest))
  {
    var body := Escape(v) + ("'" + rest);
    EscapeReadsBack(v, rest);
    QuotedTail(Escape(v), rest);
    QuotedStart(ShellQuote(v) + rest, body);
  }

  lemma QuotedTail(escaped: string, rest: string)
    ensures ("'" + escaped + "'" + rest)[1..] == escaped + ("'" + rest)
  {
  }

  lemma QuotedStart(s: string, body: string)
    requires s != "" && s[0] == '\'' && s[1..] == body
    ensures ReadWord(s) == ReadRest(body)
  {
  }

  // ---- the staged secrets file -------------------------------------------------------------------

  type Env = map<string, string>

  function Get(env: Env, key: string): string { if key in env then env[key] else "" }

  function Assignment(env: Env, key: string): string { key + "=" + ShellQuote(Get(env, key)) + "\n" }

  /** One quoted KEY=value a key; an absent key is written empty. */
  function StagedFile(env: Env, keys: seq<string>): string {
    if keys == [] then "" else Assignment(env, keys[0]) + StagedFile(env, keys[1..])
  }

  /** What `. file` leaves in the environment, for a file of assignments. */
  function Source(s: string): Option<Env>
    decreases |s|
  {
    if s == "" then Some(map[])
    else
      var i := IndexOf(s, '=');
      if i == |s| then None
      else
        var w := ReadWord(s[i + 1..]);
        if w.None? then None
        else
          var rest := Source(if w.value.1 == "" then "" else w.value.1[1..]);
          if rest.None? then None else Some(map[s[..i] := w.value.0] + rest.value)
  }

  lemma SourceOne(key: string, word: string, v: string, tail: string)
    requires '=' !in key && ReadWord(word) == Some((v, tail)) && tail != ""
    requires Source(tail[1..]).Some?
    ensures Source(key + ("=" + word)) == Some(map[key := v] + Source(tail[1..]).value)
  {
    var s := key + ("=" + word);
    IndexOfFirst(key, "=" + word, '=');
    assert s[..|key|] == key && s[|key| + 1..] == word;
  }

  lemma SourceAssignment(key: string, v: string, rest: string)
    requires '=' !in key && Source(rest).Some?
    ensures Source(key + ("=" + (ShellQuote(v) + ("\n" + rest)))) == Some(map[key := v] + Source(rest).value)
  {
    var tail := "\n" + rest;
    QuoteReadsBack(v, tail);
    assert tail[1..] == rest;
    SourceOne(key, ShellQuote(v) + tail, v, tail);
  }

  lemma RegroupAssignment(a: string, b: string, c: string, d: string, e: string)
    ensures a + b + c + d + e == a + (b + (c + (d + e)))
  {
  }

  lemma StagedOneMore(env: Env, keys: seq<string>)
    requires keys != [] && '=' !in keys[0] && Source(StagedFile(env, keys[1..])).Some?
    ensures Source(StagedFile(env, keys)) == Some(map[keys[0] := Get(env, keys[0])] + Source(StagedFile(env, keys[1..])).value)
  {
    SourceAssignment(keys[0], Get(env, keys[0]), StagedFile(env, keys[1..]));
    RegroupAssignment(keys[0], "=", ShellQuote(Get(env, keys[0])), "\n", StagedFile(env, keys[1..]));
  }

  ghost predicate SetsExactly(got: Env, env: Env, keys: seq<string>) {
    got.Keys == (set k | k in keys) && forall k :: k in keys ==> got[k] == Get(env, k)
  }

  lemma SetsOneMore(got: Env, env: Env, keys: seq<string>)
    requires keys != [] && SetsExactly(got, env, keys[1..])
    ensures SetsExactly(map[keys[0] := Get(env, keys[0])] + got, env, keys)
  {
    assert keys == [keys[0]] + keys[1..];
  }

  /** Sourcing the staged file sets every staged key to its value, and an absent one to nothing. */
  lemma {:induction false} StagedFileSources(env: Env, keys: seq<string>)
    requires forall k :: k in keys ==> '=' !in k
    ensures Source(StagedFile(env, keys)).Some?
    ensures SetsExactly(Source(StagedFile(env, keys)).value, env, keys)
  {
    if keys == [] {
    } else {
      StagedFileSources(env, keys[1..]);
      StagedOneMore(env, keys);
      SetsOneMore(Source(StagedFile(env, keys[1..])).value, env, keys);
    }
  }

  // ---- reading a .env ------------------------------------------------------------------------------------

  predicate IsQuoted(v: string) { |v| >= 2 && v[0] == v[|v| - 1] && (v[0] == '\'' || v[0] == '"') }

  function Unquoted(v: string): string { if IsQuoted(v) then v[1..|v| - 1] else v }

  function SplitPair(bare: string): Option<(string, string)> {
    var i := IndexOf(bare, '=');
    if i == |bare| then None else Some((Trim(bare[..i]), Unquoted(Trim(bare[i + 1..]))))
  }

  /** KEY=value the way `. file` would read it, minus the shell. */
  function ParseLine(raw: string): Option<(string, string)> {
    var line := Trim(raw);
    if line == "" || line[0] == '#' then None
    else SplitPair(if "export " <= line then TrimLeft(line[7..]) else line)
  }

  /** One pair of quotes, of either kind, comes off; a value that has none stays. */
  lemma QuotesComeOff(v: string)
    ensures Unquoted("'" + v + "'") == v && Unquoted("\"" + v + "\"") == v
    ensures v != "" && v[0] != '\'' && v[0] != '"' ==> Unquoted(v) == v
  {
    var a, b := "'" + v + "'", "\"" + v + "\"";
    assert a[1..|a| - 1] == v && b[1..|b| - 1] == v;
  }

  /** A blank line and a comment set nothing. */
  lemma CommentSetsNothing(before: string, rest: string)
    requires Blank(before)
    ensures ParseLine(before) == None && ParseLine(before + ("#" + rest)) == None
  {
    BlankTrims(before);
    TrimLeftSkips(before, "#" + rest);
    TrimRightKeepsStart("#" + rest);
  }

  type LineParser = string -> Option<(string, string)>

  /** A later line wins. */
  function ParseFirst(lines: seq<string>, n: nat, parse: LineParser): Env
    requires n <= |lines|
  {
    if n == 0 then map[]
    else
      var front, last := ParseFirst(lines, n - 1, parse), parse(lines[n - 1]);
      if last.None? then front else front[last.value.0 := last.value.1]
  }

  function ParseEnv(text: string): Env {
    var lines := SplitLines(text);
    ParseFirst(lines, |lines|, ParseLine)
  }

  method ParseEach(lines: seq<string>, parse: LineParser) returns (env: Env)
    ensures env == ParseFirst(lines, |lines|, parse)
  {
    env := map[];
    for i := 0 to |lines|
      invariant env == ParseFirst(lines, i, parse)
    {
      var pair := parse(lines[i]);
      if pair.Some? { env := env[pair.value.0 := pair.value.1]; }
    }
  }

  method ParseEnvText(text: string) returns (env: Env)
    ensures env == ParseEnv(text)
  {
    env := ParseEach(SplitLines(text), ParseLine);
  }

  // ---- writing one ---------------------------------------------------------------------------------------------

  datatype Pair = Pair(key: string, value: string)

  function EnvText(pairs: seq<Pair>): string {
    if pairs == [] then "" else pairs[0].key + "=" + pairs[0].value + "\n" + EnvText(pairs[1..])
  }

  predicate IsNameChar(c: char) { 'A' <= c <= 'Z' || c == '_' || '0' <= c <= '9' }

  predicate IsName(k: string) { k != "" && forall i :: 0 <= i < |k| ==> IsNameChar(k[i]) }

  function LineOf(p: Pair): string { p.key + "=" + p.value }

  function LinesOf(pairs: seq<Pair>): (r: seq<string>)
    ensures |r| == |pairs| && forall i :: 0 <= i < |r| ==> r[i] == LineOf(pairs[i])
  {
    if pairs == [] then [] else [LineOf(pairs[0])] + LinesOf(pairs[1..])
  }

  predicate OneLine(p: Pair) { IsName(p.key) && '\n' !in p.value }

  lemma SplitFirst(line: string, rest: string)
    requires '\n' !in line
    ensures SplitLines(line + "\n" + rest) == [line] + SplitLines(rest)
  {
    var s := line + ("\n" + rest);
    IndexOfFirst(line, "\n" + rest, '\n');
    assert s[..|line|] == line && s[|line| + 1..] == rest;
    assert line + "\n" + rest == s;
  }

  lemma {:induction false} EnvTextLines(pairs: seq<Pair>)
    requires forall i :: 0 <= i < |pairs| ==> OneLine(pairs[i])
    ensures SplitLines(EnvText(pairs)) == LinesOf(pairs)
  {
    if pairs == [] {
    } else {
      EnvTextLines(pairs[1..]);
      assert OneLine(pairs[0]);
      assert '\n' !in pairs[0].key;
      SplitFirst(LineOf(pairs[0]), EnvText(pairs[1..]));
      assert EnvText(pairs) == LineOf(pairs[0]) + "\n" + EnvText(pairs[1..]);
    }
  }

  // ---- reading back what was written --------------------------------------------------------------------

  lemma TrimOfLine(key: string, value: string)
    requires IsName(key)
    ensures Trim(key + ("=" + value)) == key + ("=" + TrimRight(value))
  {
    assert IsNameChar(key[0]) && (key + "=")[0] == key[0];
    TrimOfStart(key + "=", value);
    Associate(key, "=", value);
    Associate(key, "=", TrimRight(value));
  }

  lemma NameIsNoExport(key: string, rest: string)
    requires IsName(key)
    ensures var bare := key + ("=" + rest); bare != "" && bare[0] != '#' && !("export " <= bare)
  {
    var bare := key + ("=" + rest);
    assert IsNameChar(key[0]) && bare[0] == key[0] && "export "[0] == 'e';
  }

  lemma NameIsTrim(key: string)
    requires IsName(key)
    ensures Trim(key) == key && '=' !in key
  {
    assert IsNameChar(key[0]) && IsNameChar(key[|key| - 1]);
  }

  lemma PairReadsBack(key: string, rest: string)
    requires IsName(key)
    ensures SplitPair(key + ("=" + rest)) == Some((key, Unquoted(Trim(rest))))
  {
    var bare := key + ("=" + rest);
    NameIsTrim(key);
    IndexOfFirst(key, "=" + rest, '=');
    CutOut(key, rest);
  }

  lemma CutOut(key: string, rest: string)
    ensures var bare := key + ("=" + rest); bare[..|key|] == key && bare[|key| + 1..] == rest
  {
  }

  lemma ParseOrdinaryLine(raw: string, bare: string)
    requires Trim(raw) == bare && bare != "" && bare[0] != '#' && !("export " <= bare)
    ensures ParseLine(raw) == SplitPair(bare)
  {
  }

  /** A written line reads back as its key and its value, trimmed and rid of one pair of quotes. */
  lemma LineReadsBack(p: Pair)
    requires IsName(p.key)
    ensures ParseLine(LineOf(p)) == Some((p.key, Unquoted(Trim(p.value))))
  {
    var line, bare := p.key + ("=" + p.value), p.key + ("=" + TrimRight(p.value));
    assert LineOf(p) == line;
    TrimOfLine(p.key, p.value);
    NameIsNoExport(p.key, TrimRight(p.value));
    ParseOrdinaryLine(line, bare);
    PairReadsBack(p.key, TrimRight(p.value));
    TrimAfterTrimRight(p.value);
  }

  lemma {:induction false} LastWins(lines: seq<string>, n: nat, parse: LineParser, i: nat, key: string, value: string)
    requires i < n <= |lines| && parse(lines[i]) == Some((key, value))
    requires forall j :: i < j < n ==> parse(lines[j]).None? || parse(lines[j]).value.0 != key
    ensures key in ParseFirst(lines, n, parse) && ParseFirst(lines, n, parse)[key] == value
  {
    if i == n - 1 {
    } else {
      LastWins(lines, n - 1, parse, i, key, value);
    }
  }

  lemma ExportIsDropped(raw: string, bare: string)
    requires Trim(raw) == "export " + bare && bare != "" && !IsSpace(bare[0])
    ensures ParseLine(raw) == SplitPair(bare)
  {
    assert ("export " + bare)[7..] == bare && TrimLeft(bare) == bare;
    assert ("export " + bare)[0] == 'e';
  }

  lemma StartTrims(a: string, middle: string, value: string)
    requires a != "" && middle != "" && !IsSpace(a[0]) && !IsSpace(middle[|middle| - 1])
    ensures Trim(a + (middle + value)) == a + (middle + TrimRight(value))
  {
    assert (a + middle)[|a + middle| - 1] == middle[|middle| - 1];
    TrimOfStart(a + middle, value);
    Associate(a, middle, value);
    Associate(a, middle, TrimRight(value));
  }

  lemma ExportTrims(key: string, value: string)
    requires IsName(key)
    ensures Trim("export " + (key + ("=" + value))) == "export " + (key + ("=" + TrimRight(value)))
  {
    StartTrims("export ", key + "=", value);
    Associate(key, "=", value);
    Associate(key, "=", TrimRight(value));
  }

  /** A line that begins with export sets what it would without. */
  lemma ExportReadsTheSame(p: Pair)
    requires IsName(p.key)
    ensures ParseLine("export " + LineOf(p)) == ParseLine(LineOf(p))
  {
    var bare := p.key + ("=" + TrimRight(p.value));
    assert LineOf(p) == p.key + ("=" + p.value);
    ExportTrims(p.key, p.value);
    assert IsNameChar(p.key[0]) && bare[0] == p.key[0];
    ExportIsDropped("export " + LineOf(p), bare);
    PairReadsBack(p.key, TrimRight(p.value));
    TrimAfterTrimRight(p.value);
    LineReadsBack(p);
  }

  /** Each value of a written .env reads back, trimmed and rid of one pair of quotes. */
  lemma EnvReadsBack(pairs: seq<Pair>, i: nat)
    requires i < |pairs| && forall j :: 0 <= j < |pairs| ==> OneLine(pairs[j])
    requires forall j :: 0 <= j < |pairs| && j != i ==> pairs[j].key != pairs[i].key
    ensures Get(ParseEnv(EnvText(pairs)), pairs[i].key) == Unquoted(Trim(pairs[i].value))
  {
    var lines := LinesOf(pairs);
    EnvTextLines(pairs);
    forall j | 0 <= j < |pairs| ensures ParseLine(lines[j]) == Some((pairs[j].key, Unquoted(Trim(pairs[j].value)))) {
      assert OneLine(pairs[j]);
      LineReadsBack(pairs[j]);
    }
    LastWins(lines, |lines|, ParseLine, i, pairs[i].key, Unquoted(Trim(pairs[i].value)));
  }

  // ---- a write cut short ------------------------------------------------------------------------

  /** The lines of a .env of which only the first `n` characters were written. */
  function CutLines(pairs: seq<Pair>, n: nat): seq<string>
    decreases |pairs|
  {
    if pairs == [] || n == 0 then []
    else
      var line := LineOf(pairs[0]);
      if n <= |line| then [line[..n]] else [line] + CutLines(pairs[1..], n - |line| - 1)
  }

  lemma SplitOneLine(line: string)
    requires '\n' !in line && line != ""
    ensures SplitLines(line) == [line]
  {
    IndexOfFirst(line, "", '\n');
    assert line + "" == line && line[..|line|] == line;
  }

  lemma CutInside(line: string, rest: string, n: nat)
    requires n <= |line|
    ensures (line + "\n" + rest)[..n] == line[..n]
  {
  }

  lemma CutBeyond(line: string, rest: string, n: nat)
    requires |line| < n <= |line| + 1 + |rest|
    ensures (line + "\n" + rest)[..n] == line + "\n" + rest[..n - |line| - 1]
  {
  }

  lemma {:induction false} CutTextLines(pairs: seq<Pair>, n: nat)
    requires n <= |EnvText(pairs)| && forall i :: 0 <= i < |pairs| ==> OneLine(pairs[i])
    ensures SplitLines(EnvText(pairs)[..n]) == CutLines(pairs, n)
    decreases |pairs|
  {
    if pairs != [] && n > 0 {
      var line, rest := LineOf(pairs[0]), EnvText(pairs[1..]);
      assert OneLine(pairs[0]);
      NameHasNoBreak(pairs[0].key);
      assert '\n' !in line;
      assert EnvText(pairs) == line + "\n" + rest;
      if n <= |line| {
        CutInside(line, rest, n);
        SplitOneLine(line[..n]);
      } else {
        CutBeyond(line, rest, n);
        CutTextLines(pairs[1..], n - |line| - 1);
        SplitFirst(line, rest[..n - |line| - 1]);
      }
    }
  }

  lemma NameHasNoBreak(key: string)
    requires IsName(key)
    ensures '\n' !in key
  {
  }

  /** A cut line is read for its own key only, and only once its value has begun. */
  lemma CutLineReads(p: Pair, c: nat)
    requires IsName(p.key) && c <= |LineOf(p)|
    ensures ParseLine(LineOf(p)[..c])
            == if c <= |p.key| then None else Some((p.key, Unquoted(Trim(p.value[..c - |p.key| - 1]))))
  {
    if c <= |p.key| {
      NamePrefixIsNoPair(p.key, c);
      assert LineOf(p)[..c] == p.key[..c];
    } else {
      var short := Pair(p.key, p.value[..c - |p.key| - 1]);
      assert LineOf(p)[..c] == LineOf(short);
      LineReadsBack(short);
    }
  }

  lemma NamePrefixIsNoPair(key: string, c: nat)
    requires IsName(key) && c <= |key|
    ensures ParseLine(key[..c]).None?
  {
    var s := key[..c];
    if c > 0 {
      assert IsName(s);
      NameIsTrim(s);
      assert IsNameChar(s[0]) && "export "[0] == 'e';
      IndexOfFirst(s, "", '=');
      assert s + "" == s;
    }
  }

  /** Where a pair's line starts in the text. */
  function LineStart(pairs: seq<Pair>, i: nat): nat
    requires i < |pairs|
  {
    if i == 0 then 0 else |LineOf(pairs[0])| + 1 + LineStart(pairs[1..], i - 1)
  }

  /** How much of a line is there when only `n` characters of the text are. */
  function LengthCut(pairs: seq<Pair>, i: nat, n: nat): nat
    requires i < |pairs| && n >= LineStart(pairs, i)
  {
    if n - LineStart(pairs, i) <= |LineOf(pairs[i])| then n - LineStart(pairs, i) else |LineOf(pairs[i])|
  }

  lemma {:induction false} CutLineAt(pairs: seq<Pair>, n: nat, i: nat)
    requires i < |pairs|
    ensures |CutLines(pairs, n)| <= |pairs|
    ensures i < |CutLines(pairs, n)| <==> n > LineStart(pairs, i)
    ensures i < |CutLines(pairs, n)| ==> CutLines(pairs, n)[i] == LineOf(pairs[i])[..LengthCut(pairs, i, n)]
    decreases |pairs|
  {
    var line := LineOf(pairs[0]);
    assert line[..|line|] == line;
    if n > |line| {
      if i > 0 {
        CutLineAt(pairs[1..], n - |line| - 1, i - 1);
      } else if |pairs| > 1 {
        CutLineAt(pairs[1..], n - |line| - 1, 0);
      }
    }
  }

  lemma {:induction false} NobodySetsIt(lines: seq<string>, n: nat, parse: LineParser, key: string)
    requires n <= |lines|
    requires forall j :: 0 <= j < n ==> parse(lines[j]).None? || parse(lines[j]).value.0 != key
    ensures key !in ParseFirst(lines, n, parse)
  {
    if n == 0 {
    } else {
      NobodySetsIt(lines, n - 1, parse, key);
    }
  }

  lemma OtherLineReads(pairs: seq<Pair>, n: nat, j: nat, key: string)
    requires j < |pairs| && IsName(pairs[j].key) && pairs[j].key != key && j < |CutLines(pairs, n)|
    ensures var r := ParseLine(CutLines(pairs, n)[j]); r.None? || r.value.0 != key
  {
    CutLineAt(pairs, n, j);
    CutLineReads(pairs[j], LengthCut(pairs, j, n));
  }

  lemma OneSetter(lines: seq<string>, parse: LineParser, i: nat, key: string, value: Option<string>)
    requires forall j :: 0 <= j < |lines| && j != i ==> parse(lines[j]).None? || parse(lines[j]).value.0 != key
    requires if i < |lines| then parse(lines[i]) == (if value.None? then None else Some((key, value.value))) else value.None?
    ensures key in ParseFirst(lines, |lines|, parse) <==> value.Some?
    ensures value.Some? ==> ParseFirst(lines, |lines|, parse)[key] == value.value
  {
    if value.Some? {
      LastWins(lines, |lines|, parse, i, key, value.value);
    } else {
      NobodySetsIt(lines, |lines|, parse, key);
    }
  }

  /** What is left of a value when only `n` characters of the text are there. */
  function CutValue(pairs: seq<Pair>, i: nat, n: nat): Option<string>
    requires i < |pairs|
  {
    if n <= LineStart(pairs, i) || LengthCut(pairs, i, n) <= |pairs[i].key| then None
    else Some(Unquoted(Trim(pairs[i].value[..LengthCut(pairs, i, n) - |pairs[i].key| - 1])))
  }

  lemma OwnLineReads(pairs: seq<Pair>, n: nat, i: nat)
    requires i < |pairs| && IsName(pairs[i].key)
    ensures i < |CutLines(pairs, n)| ==>
              ParseLine(CutLines(pairs, n)[i])
              == if CutValue(pairs, i, n).None? then None else Some((pairs[i].key, CutValue(pairs, i, n).value))
    ensures i >= |CutLines(pairs, n)| ==> CutValue(pairs, i, n).None?
  {
    CutLineAt(pairs, n, i);
    if n > LineStart(pairs, i) { CutLineReads(pairs[i], LengthCut(pairs, i, n)); }
  }

  /**
   * A key of a .env cut short: absent unless its value has begun, and then as
   * much of its value as was written, trimmed and rid of one pair of quotes.
   */
  lemma CutEnvReads(pairs: seq<Pair>, n: nat, i: nat)
    requires i < |pairs| && n <= |EnvText(pairs)|
    requires forall j :: 0 <= j < |pairs| ==> OneLine(pairs[j])
    requires forall j :: 0 <= j < |pairs| && j != i ==> pairs[j].key != pairs[i].key
    ensures var env, value := ParseEnv(EnvText(pairs)[..n]), CutValue(pairs, i, n);
            (pairs[i].key in env <==> value.Some?) && (value.Some? ==> env[pairs[i].key] == value.value)
  {
    var lines := CutLines(pairs, n);
    CutTextLines(pairs, n);
    CutLineAt(pairs, n, i);
    assert OneLine(pairs[i]);
    OwnLineReads(pairs, n, i);
    forall j | 0 <= j < |lines| && j != i
      ensures ParseLine(lines[j]).None? || ParseLine(lines[j]).value.0 != pairs[i].key
    {
      assert OneLine(pairs[j]);
      OtherLineReads(pairs, n, j, pairs[i].key);
    }
    OneSetter(lines, ParseLine, i, pairs[i].key, CutValue(pairs, i, n));
  }

  // ---- a parsed value never spans lines ----------------------------------------------------------------------

  lemma {:induction false} TrimLeftAbsent(s: string, c: char)
    requires c !in s
    ensures c !in TrimLeft(s)
  {
    if s != "" && IsSpace(s[0]) { TrimLeftAbsent(s[1..], c); }
  }

  lemma {:induction false} TrimRightAbsent(s: string, c: char)
    requires c !in s
    ensures c !in TrimRight(s)
  {
    if s != "" && IsSpace(s[|s| - 1]) { TrimRightAbsent(s[..|s| - 1], c); }
  }

  lemma TrimAbsent(s: string, c: char)
    requires c !in s
    ensures c !in Trim(s)
  {
    TrimLeftAbsent(s, c);
    TrimRightAbsent(TrimLeft(s), c);
  }

  lemma SplitPairAbsent(bare: string, c: char)
    requires c !in bare
    ensures SplitPair(bare).Some? ==> c !in SplitPair(bare).value.1
  {
    var i := IndexOf(bare, '=');
    if i < |bare| { TrimAbsent(bare[i + 1..], c); }
  }

  lemma ParsedLineHasNoBreak(raw: string)
    requires '\n' !in raw
    ensures ParseLine(raw).Some? ==> '\n' !in ParseLine(raw).value.1
  {
    var line := Trim(raw);
    TrimAbsent(raw, '\n');
    if line != "" && line[0] != '#' {
      if "export " <= line {
        TrimLeftAbsent(line[7..], '\n');
        SplitPairAbsent(TrimLeft(line[7..]), '\n');
      } else {
        SplitPairAbsent(line, '\n');
      }
    }
  }

  ghost predicate NoBreaks(env: Env) { forall k :: k in env ==> '\n' !in env[k] }

  lemma {:induction false} ParsedHasNoBreaks(lines: seq<string>, n: nat, parse: LineParser)
    requires n <= |lines|
    requires forall i :: 0 <= i < n && parse(lines[i]).Some? ==> '\n' !in parse(lines[i]).value.1
    ensures NoBreaks(ParseFirst(lines, n, parse))
  {
    if n == 0 {
    } else {
      ParsedHasNoBreaks(lines, n - 1, parse);
    }
  }

  lemma ParsedEnvHasNoBreaks(text: string)
    ensures NoBreaks(ParseEnv(text))
  {
    var lines := SplitLines(text);
    forall i | 0 <= i < |lines| && ParseLine(lines[i]).Some? ensures '\n' !in ParseLine(lines[i]).value.1 {
      assert lines[i] in lines;
      ParsedLineHasNoBreak(lines[i]);
    }
    ParsedHasNoBreaks(lines, |lines|, ParseLine);
  }
}
