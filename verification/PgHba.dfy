/** Moving loopback rules of pg_hba.conf to scram-sha-256, one token at a time. */
module PgHba {
  import opened Wrappers
  import opened Text

  const MARKER_START := " -- loopback host rules " + "set to scram-sha-256; "
  const MARKER_END := "the file as it was is " + "beside this one, as " + "pg_hba.conf.orig"
  const PG_HBA_MARKER := MANAGED_MARKER + (MARKER_START + MARKER_END)
  const SCRAM := "scram-sha-256"

  const LOOPBACK_ADDRESSES := ["127.0.0.1", "::1", "localhost", "samehost"]
  const HOST_TYPES := ["host", "hostssl", "hostnossl", "hostgssenc", "hostnogssenc"]
  const WEAK_METHODS := ["ident", "md5", "trust", "password"]
  const AUTH_METHODS := ["trust", "reject", SCRAM, "md5", "password", "gss", "sspi",
                         "ident", "peer", "ldap", "radius", "cert", "pam", "bsd"]
  const ADDRESS_FIELD := 3

  // ---- what the code asks of a word ----------------------------------------------------------

  /** All the code asks of a word. */
  datatype Field = Field(hostType: bool, replication: bool, loopback: bool, auth: bool, weak: bool)

  predicate IsOneOf(word: string, names: seq<string>) {
    names != [] && (names[0] == word || IsOneOf(word, names[1..]))
  }

  function Look(word: string): Field {
    var low := Lower(word);
    Field(IsOneOf(low, HOST_TYPES), word == "replication",
          IsOneOf(Lower(Trim(word[..IndexOf(word, '/')])), LOOPBACK_ADDRESSES),
          IsOneOf(low, AUTH_METHODS), IsOneOf(low, WEAK_METHODS))
  }

  // ---- words and the space between them -----------------------------------------------------

  datatype Token = Token(gap: string, word: string)

  /** A line's words, each with the space before it, and the space after the last. */
  datatype Layout = Layout(tokens: seq<Token>, tail: string)

  function BlankLen(s: string): (n: nat)
    ensures n <= |s| && AllSpace(s[..n]) && (n < |s| ==> !IsSpace(s[n]))
  {
    if s == "" || !IsSpace(s[0]) then 0
    else
      var n := BlankLen(s[1..]);
      assert s[..n + 1] == [s[0]] + s[1..][..n];
      n + 1
  }

  function WordLen(s: string): (n: nat)
    ensures n <= |s| && NoSpace(s[..n]) && (n < |s| ==> IsSpace(s[n]))
  {
    if s == "" || IsSpace(s[0]) then 0
    else
      var n := WordLen(s[1..]);
      assert s[..n + 1] == [s[0]] + s[1..][..n];
      n + 1
  }

  predicate AllSpace(s: string) { forall i :: 0 <= i < |s| ==> IsSpace(s[i]) }

  predicate NoSpace(s: string) { forall i :: 0 <= i < |s| ==> !IsSpace(s[i]) }

  function Parse(s: string): Layout
    decreases |s|
  {
    var b := BlankLen(s);
    if b == |s| then Layout([], s)
    else
      var w := WordLen(s[b..]);
      var rest := Parse(s[b + w..]);
      Before(Token(s[..b], s[b..b + w]), rest)
  }

  function Before(t: Token, l: Layout): Layout { Layout([t] + l.tokens, l.tail) }

  function PrintTokens(tokens: seq<Token>): string {
    if tokens == [] then "" else tokens[0].gap + tokens[0].word + PrintTokens(tokens[1..])
  }

  function Print(l: Layout): string { PrintTokens(l.tokens) + l.tail }

  /** Only the first word may have no space before it. */
  ghost predicate WellLaid(l: Layout) {
    && AllSpace(l.tail)
    && forall i :: 0 <= i < |l.tokens| ==> Separated(l.tokens[i], i)
  }

  predicate Separated(t: Token, i: nat) {
    AllSpace(t.gap) && (i > 0 ==> t.gap != "") && t.word != "" && NoSpace(t.word)
  }

  lemma Regroup(a: string, b: string, c: string, d: string)
    ensures a + b + c + d == a + b + (c + d)
  {
  }

  lemma PrintBefore(t: Token, l: Layout)
    ensures Print(Before(t, l)) == t.gap + t.word + Print(l)
  {
    assert Before(t, l).tokens[1..] == l.tokens;
    Regroup(t.gap, t.word, PrintTokens(l.tokens), l.tail);
  }

  lemma SplitInThree(s: string, b: nat, w: nat)
    requires b + w <= |s|
    ensures s == s[..b] + s[b..b + w] + s[b + w..]
  {
  }

  lemma {:induction false} PrintParse(s: string)
    ensures Print(Parse(s)) == s
    decreases |s|
  {
    var b := BlankLen(s);
    if b == |s| {
      assert "" + s == s;
    } else {
      var w := WordLen(s[b..]);
      var t, rest := Token(s[..b], s[b..b + w]), s[b + w..];
      assert Parse(s) == Before(t, Parse(rest));
      PrintParse(rest);
      PrintBefore(t, Parse(rest));
      SplitInThree(s, b, w);
    }
  }

  lemma WordIsThere(s: string)
    requires s != "" && !IsSpace(s[0])
    ensures WordLen(s) > 0
  {
  }

  lemma SlicesSeparate(s: string, b: nat, w: nat)
    requires b + w <= |s| && w > 0 && AllSpace(s[..b]) && NoSpace(s[b..][..w])
    ensures Separated(Token(s[..b], s[b..b + w]), 0)
  {
    assert s[b..][..w] == s[b..b + w];
  }

  lemma {:induction false} ParseIsWellLaid(s: string)
    ensures WellLaid(Parse(s))
    ensures s != "" && !IsSpace(s[0]) ==> Parse(s).tokens != []
    decreases |s|
  {
    var b := BlankLen(s);
    if b == |s| {
    } else {
      var w := WordLen(s[b..]);
      WordIsThere(s[b..]);
      SlicesSeparate(s, b, w);
      ParseIsWellLaid(s[b + w..]);
      FirstGap(s[b + w..]);
      WellLaidBefore(Token(s[..b], s[b..b + w]), Parse(s[b + w..]));
    }
  }

  lemma FirstGap(s: string)
    ensures s != "" && IsSpace(s[0]) && Parse(s).tokens != [] ==> Parse(s).tokens[0].gap != ""
  {
  }

  lemma WellLaidBefore(t: Token, l: Layout)
    requires WellLaid(l) && Separated(t, 0) && (l.tokens != [] ==> l.tokens[0].gap != "")
    ensures WellLaid(Before(t, l))
  {
    var m := Before(t, l);
    forall i | 0 <= i < |m.tokens| ensures Separated(m.tokens[i], i) {
      if i > 0 { assert Separated(l.tokens[i - 1], i - 1); }
    }
  }

  lemma {:induction false} BlankLenOf(gap: string, rest: string)
    requires AllSpace(gap) && (rest == "" || !IsSpace(rest[0]))
    ensures BlankLen(gap + rest) == |gap|
  {
    if gap == "" {
      assert gap + rest == rest;
    } else {
      BlankLenOf(gap[1..], rest);
      assert (gap + rest)[0] == gap[0] && (gap + rest)[1..] == gap[1..] + rest;
    }
  }

  lemma {:induction false} WordLenOf(word: string, rest: string)
    requires NoSpace(word) && (rest == "" || IsSpace(rest[0]))
    ensures WordLen(word + rest) == |word|
  {
    if word == "" {
      assert word + rest == rest;
    } else {
      WordLenOf(word[1..], rest);
      assert (word + rest)[0] == word[0] && (word + rest)[1..] == word[1..] + rest;
    }
  }

  lemma ParseTokenThen(t: Token, rest: string)
    requires Separated(t, 0) && (rest == "" || IsSpace(rest[0]))
    ensures Parse(t.gap + t.word + rest) == Before(t, Parse(rest))
  {
    var s := t.gap + t.word + rest;
    assert s == t.gap + (t.word + rest);
    assert (t.word + rest)[0] == t.word[0];
    BlankLenOf(t.gap, t.word + rest);
    WordLenOf(t.word, rest);
    var b := |t.gap|;
    assert s[b..] == t.word + rest;
    assert s[..b] == t.gap && s[b..b + |t.word|] == t.word && s[b + |t.word|..] == rest;
  }

  lemma {:induction false} ParsePrint(l: Layout)
    requires WellLaid(l)
    ensures Parse(Print(l)) == l
    decreases |l.tokens|
  {
    if l.tokens == [] {
      assert Print(l) == l.tail;
      BlankLenOf(l.tail, "");
      assert l.tail + "" == l.tail;
    } else {
      var t, rest := l.tokens[0], Layout(l.tokens[1..], l.tail);
      assert l == Before(t, rest);
      assert Separated(l.tokens[0], 0);
      forall i | 0 <= i < |rest.tokens| ensures Separated(rest.tokens[i], i) {
        assert Separated(l.tokens[i + 1], i + 1);
      }
      ParsePrint(rest);
      StartsWithSpace(rest);
      PrintBefore(t, rest);
      ParseTokenThen(t, Print(rest));
    }
  }

  lemma StartsWithSpace(l: Layout)
    requires AllSpace(l.tail)
    requires l.tokens != [] ==> AllSpace(l.tokens[0].gap) && l.tokens[0].gap != ""
    ensures Print(l) == "" || IsSpace(Print(l)[0])
  {
    if l.tokens != [] {
      assert Print(l)[0] == l.tokens[0].gap[0];
    }
  }

  // ---- which rules are rewritten -------------------------------------------------------------

  /** `look` is how a word is classified: `Look` below, for the file itself. */
  type Classifier = string -> Field

  function FieldsOf(tokens: seq<Token>, look: Classifier): (r: seq<Field>)
    ensures |r| == |tokens| && forall i :: 0 <= i < |r| ==> r[i] == look(tokens[i].word)
  {
    if tokens == [] then [] else [look(tokens[0].word)] + FieldsOf(tokens[1..], look)
  }

  /** The first field from `from` on that names an authentication method. */
  function MethodIndex(fields: seq<Field>, from: nat): (i: Option<nat>)
    ensures i.Some? ==> from <= i.value < |fields| && fields[i.value].auth
    ensures i.Some? ==> forall k :: from <= k < i.value ==> !fields[k].auth
    ensures i.None? ==> forall k :: from <= k < |fields| ==> !fields[k].auth
    decreases |fields| - from
  {
    if from >= |fields| then None else if fields[from].auth then Some(from) else MethodIndex(fields, from + 1)
  }

  /** A TCP rule for a loopback address that is not about replication. */
  predicate Recognised(fields: seq<Field>) {
    |fields| > ADDRESS_FIELD + 1 && fields[0].hostType && !fields[1].replication && fields[ADDRESS_FIELD].loopback
  }

  /** Where a recognised rule has a weak method, if it does. */
  function WeakMethod(fields: seq<Field>): (i: Option<nat>)
    ensures i.Some? ==> ADDRESS_FIELD < i.value < |fields| && fields[i.value].weak && Recognised(fields)
  {
    if !Recognised(fields) then None
    else
      var i := MethodIndex(fields, ADDRESS_FIELD + 1);
      if i.Some? && fields[i.value].weak then i else None
  }

  // ---- rewriting a line ----------------------------------------------------------------------------

  /** A line, read: its words and spaces, and the comment from the first `#` on. */
  datatype Row = Row(layout: Layout, comment: string)

  function Read(line: string): Row { Row(Parse(line[..IndexOf(line, '#')]), line[IndexOf(line, '#')..]) }

  function TextOf(row: Row): string { Print(row.layout) + row.comment }

  function WeakIn(row: Row, look: Classifier): (i: Option<nat>)
    ensures i.Some? ==> ADDRESS_FIELD < i.value < |row.layout.tokens| && look(row.layout.tokens[i.value].word).weak
  {
    WeakMethod(FieldsOf(row.layout.tokens, look))
  }

  function ReplaceWord(l: Layout, i: nat, word: string): Layout
    requires i < |l.tokens|
  {
    l.(tokens := l.tokens[i := l.tokens[i].(word := word)])
  }

  function RewriteRow(row: Row, to: string, look: Classifier): Row {
    var i := WeakIn(row, look);
    if i.None? then row else row.(layout := ReplaceWord(row.layout, i.value, to))
  }

  function RewriteLine(line: string, to: string, look: Classifier): string {
    if WeakIn(Read(line), look).None? then line else TextOf(RewriteRow(Read(line), to, look))
  }

  // ---- the new method ----------------------------------------------------------------------------------

  lemma {:induction false} LowerIdentity(s: string)
    requires forall i :: 0 <= i < |s| ==> !('A' <= s[i] <= 'Z')
    ensures Lower(s) == s
  {
    if s == "" {
    } else {
      LowerIdentity(s[1..]);
      assert s == [s[0]] + s[1..];
    }
  }

  lemma {:induction false} IsOneOfExact(word: string, names: seq<string>)
    ensures IsOneOf(word, names) <==> word in names
  {
    if names == [] {
    } else {
      IsOneOfExact(word, names[1..]);
    }
  }

  /** A word that can take a weak method's place. */
  ghost predicate Strong(word: string, look: Classifier) {
    word != "" && NoSpace(word) && '#' !in word && look(word).auth && !look(word).weak
  }

  lemma StrongMethod(word: string)
    requires word != "" && NoSpace(word) && '#' !in word
    requires Lower(word) == word && word in AUTH_METHODS && word !in WEAK_METHODS
    ensures Strong(word, Look)
  {
    IsOneOfExact(word, AUTH_METHODS);
    IsOneOfExact(word, WEAK_METHODS);
  }

  lemma ScramLetters()
    ensures forall i :: 0 <= i < |SCRAM| ==> !('A' <= SCRAM[i] <= 'Z') && !IsSpace(SCRAM[i]) && SCRAM[i] != '#'
  {
  }

  lemma ScramIsNotWeak()
    ensures SCRAM in AUTH_METHODS && SCRAM !in WEAK_METHODS
  {
    assert AUTH_METHODS[2] == SCRAM;
    assert forall i :: 0 <= i < 4 ==> |WEAK_METHODS[i]| < |SCRAM|;
  }

  lemma ScramIsStrong(word: string)
    requires word == SCRAM
    ensures Strong(word, Look)
  {
    ScramLetters();
    ScramIsNotWeak();
    LowerIdentity(word);
    StrongMethod(word);
  }

  lemma ReplacedIsStrong(fields: seq<Field>, strong: Field)
    requires WeakMethod(fields).Some? && strong.auth && !strong.weak
    ensures WeakMethod(fields[WeakMethod(fields).value := strong]).None?
  {
    var i := WeakMethod(fields).value;
    var after := fields[i := strong];
    var k := MethodIndex(after, ADDRESS_FIELD + 1);
    assert after[i].auth;
    assert forall j :: ADDRESS_FIELD < j < i ==> !fields[j].auth && after[j] == fields[j];
    assert k == Some(i);
  }

  /** No rule the code recognises keeps a weak method. */
  lemma NoWeakMethodKept(row: Row, to: string, look: Classifier)
    requires Strong(to, look)
    ensures WeakIn(RewriteRow(row, to, look), look).None?
  {
    if WeakIn(row, look).Some? {
      var i := WeakIn(row, look).value;
      ReplacedIsStrong(FieldsOf(row.layout.tokens, look), look(to));
      assert FieldsOf(RewriteRow(row, to, look).layout.tokens, look) == FieldsOf(row.layout.tokens, look)[i := look(to)];
    }
  }

  // ---- reading the new line back ---------------------------------------------------------------------------

  ghost predicate Readable(row: Row) {
    WellLaid(row.layout) && '#' !in Print(row.layout) && (row.comment == "" || row.comment[0] == '#')
  }

  lemma ReadBack(row: Row)
    requires Readable(row)
    ensures Read(TextOf(row)) == row
  {
    var code := Print(row.layout);
    IndexOfFirst(code, row.comment, '#');
    ParsePrint(row.layout);
    assert (code + row.comment)[..|code|] == code && (code + row.comment)[|code|..] == row.comment;
  }

  lemma CodeIsReadable(code: string, comment: string)
    requires '#' !in code && (comment == "" || comment[0] == '#')
    ensures Readable(Row(Parse(code), comment)) && TextOf(Row(Parse(code), comment)) == code + comment
  {
    ParseIsWellLaid(code);
    PrintParse(code);
  }

  lemma CutAt(line: string, i: nat)
    requires i <= |line|
    ensures line[..i] + line[i..] == line
  {
  }

  lemma ReadIsReadable(line: string)
    ensures Readable(Read(line)) && TextOf(Read(line)) == line
  {
    var i := IndexOf(line, '#');
    CodeIsReadable(line[..i], line[i..]);
    CutAt(line, i);
  }

  lemma ReplaceStaysLaid(l: Layout, i: nat, word: string)
    requires WellLaid(l) && i < |l.tokens| && word != "" && NoSpace(word)
    ensures WellLaid(ReplaceWord(l, i, word))
  {
    var m := ReplaceWord(l, i, word);
    forall k | 0 <= k < |m.tokens| ensures Separated(m.tokens[k], k) { assert Separated(l.tokens[k], k); }
  }

  lemma AbsentInParts(x: string, y: string, z: string, c: char)
    requires c !in x + y + z
    ensures c !in x && c !in y && c !in z
  {
    forall i | 0 <= i < |x| ensures x[i] != c { assert (x + y + z)[i] == x[i]; }
    forall i | 0 <= i < |y| ensures y[i] != c { assert (x + y + z)[|x| + i] == y[i]; }
    forall i | 0 <= i < |z| ensures z[i] != c { assert (x + y + z)[|x| + |y| + i] == z[i]; }
  }

  lemma {:induction false} AbsentInTokens(tokens: seq<Token>, c: char, i: nat, word: string)
    requires c !in PrintTokens(tokens) && c !in word && i < |tokens|
    ensures c !in PrintTokens(tokens[i := tokens[i].(word := word)])
  {
    var more := tokens[i := tokens[i].(word := word)];
    AbsentInParts(tokens[0].gap, tokens[0].word, PrintTokens(tokens[1..]), c);
    if i == 0 {
      assert more[1..] == tokens[1..];
    } else {
      AbsentInTokens(tokens[1..], c, i - 1, word);
      assert more[1..] == tokens[1..][i - 1 := tokens[i].(word := word)];
    }
  }

  lemma ReplaceStaysReadable(row: Row, i: nat, word: string)
    requires Readable(row) && i < |row.layout.tokens| && word != "" && NoSpace(word) && '#' !in word
    ensures Readable(row.(layout := ReplaceWord(row.layout, i, word)))
  {
    var l := row.layout;
    ReplaceStaysLaid(l, i, word);
    AbsentInParts(PrintTokens(l.tokens), l.tail, "", '#');
    assert PrintTokens(l.tokens) + l.tail + "" == Print(l);
    AbsentInTokens(l.tokens, '#', i, word);
  }

  /**
   * A rewritten line reads back as the rewritten words: only the method differs,
   * every other word, all the space and the comment are kept. Other lines are untouched.
   */
  lemma OnlyTheMethodChanges(line: string, to: string, look: Classifier)
    requires Strong(to, look)
    ensures Read(RewriteLine(line, to, look)) == RewriteRow(Read(line), to, look)
    ensures WeakIn(Read(line), look).None? <==> RewriteLine(line, to, look) == line
  {
    var row := Read(line);
    ReadIsReadable(line);
    if WeakIn(row, look).Some? {
      ReplaceStaysReadable(row, WeakIn(row, look).value, to);
      ReadBack(RewriteRow(row, to, look));
      NoWeakMethodKept(row, to, look);
    }
  }

  /** No recognised rule of the rewritten file is weak, and rewriting it again changes nothing. */
  lemma NoWeakRuleLeft(line: string, to: string, look: Classifier)
    requires Strong(to, look)
    ensures WeakIn(Read(RewriteLine(line, to, look)), look).None?
    ensures RewriteLine(RewriteLine(line, to, look), to, look) == RewriteLine(line, to, look)
  {
    OnlyTheMethodChanges(line, to, look);
    NoWeakMethodKept(Read(line), to, look);
  }

  // ---- the file ------------------------------------------------------------------------------------------------

  predicate IsWeak(line: string, look: Classifier) { WeakIn(Read(line), look).Some? }

  function Rewriter(to: string, look: Classifier): string -> string { line => RewriteLine(line, to, look) }

  function Weakness(look: Classifier): string -> bool { line => IsWeak(line, look) }

  function MapFirst(lines: seq<string>, n: nat, f: string -> string): (r: seq<string>)
    requires n <= |lines|
    ensures |r| == n
  {
    if n == 0 then [] else MapFirst(lines, n - 1, f) + [f(lines[n - 1])]
  }

  predicate AnyFirst(lines: seq<string>, n: nat, p: string -> bool)
    requires n <= |lines|
  {
    n > 0 && (AnyFirst(lines, n - 1, p) || p(lines[n - 1]))
  }

  /** The file is rewritten line by line. */
  function RewriteLines(lines: seq<string>, to: string, look: Classifier): (r: seq<string>)
    ensures |r| == |lines|
  {
    MapFirst(lines, |lines|, Rewriter(to, look))
  }

  predicate AnyWeak(lines: seq<string>, look: Classifier) { AnyFirst(lines, |lines|, Weakness(look)) }

  lemma {:induction false} MappedAt(lines: seq<string>, n: nat, i: nat, f: string -> string)
    requires i < n <= |lines|
    ensures MapFirst(lines, n, f)[i] == f(lines[i])
  {
    if i == n - 1 {
    } else {
      MappedAt(lines, n - 1, i, f);
    }
  }

  lemma {:induction false} AnyFirstExact(lines: seq<string>, n: nat, p: string -> bool)
    requires n <= |lines|
    ensures AnyFirst(lines, n, p) <==> exists i :: 0 <= i < n && p(lines[i])
  {
    if n == 0 {
    } else {
      AnyFirstExact(lines, n - 1, p);
    }
  }

  function RewriteText(text: string, to: string, look: Classifier): string {
    if Contains(text, MANAGED_MARKER) || !AnyWeak(SplitLines(text), look) then text
    else Rejoin([PG_HBA_MARKER] + RewriteLines(SplitLines(text), to, look), text)
  }

  /** Swap the index-th word of a line, keeping every space. */
  method ReplaceField(l: Layout, index: nat, replacement: string) returns (r: Layout)
    requires index < |l.tokens|
    ensures r == ReplaceWord(l, index, replacement)
  {
    var pieces := l.tokens;
    var seen := -1;
    for position := 0 to |pieces|
      invariant seen == position - 1 < index && pieces == l.tokens
    {
      seen := seen + 1;
      if seen == index {
        pieces := pieces[position := pieces[position].(word := replacement)];
        break;
      }
    }
    return Layout(pieces, l.tail);
  }

  method RewriteOne(line: string, to: string, look: Classifier) returns (out: string, changed: bool)
    ensures out == RewriteLine(line, to, look) && (changed <==> IsWeak(line, look))
  {
    var row := Read(line);
    var index := WeakIn(row, look);
    if index.None? { return line, false; }
    var layout := ReplaceField(row.layout, index.value, to);
    return Print(layout) + row.comment, true;
  }

  method RewriteAll(lines: seq<string>, to: string, look: Classifier) returns (out: seq<string>, changed: bool)
    ensures out == RewriteLines(lines, to, look) && (changed <==> AnyWeak(lines, look))
  {
    out, changed := [], false;
    for i := 0 to |lines|
      invariant out == MapFirst(lines, i, Rewriter(to, look))
      invariant changed <==> AnyFirst(lines, i, Weakness(look))
    {
      var line, weak := RewriteOne(lines[i], to, look);
      out := out + [line];
      changed := changed || weak;
    }
  }

  method RewritePgHba(text: string) returns (result: string, changed: bool)
    ensures result == RewriteText(text, SCRAM, Look)
    ensures changed <==> !Contains(text, MANAGED_MARKER) && AnyWeak(SplitLines(text), Look)
  {
    if Contains(text, MANAGED_MARKER) { return text, false; }
    var out;
    out, changed := RewriteAll(SplitLines(text), SCRAM, Look);
    if !changed { return text, false; }
    result := Rejoin([PG_HBA_MARKER] + out, text);
  }

  lemma MarkerIsMarked(rest: string)
    ensures Contains(MANAGED_MARKER + rest, MANAGED_MARKER)
  {
    assert (MANAGED_MARKER + rest)[0..] == MANAGED_MARKER + rest;
  }

  /** A file that was edited carries the marker, so a second run leaves it alone. */
  lemma SecondRunLeavesAlone(text: string, to: string, look: Classifier)
    ensures RewriteText(RewriteText(text, to, look), to, look) == RewriteText(text, to, look)
  {
    if RewriteText(text, to, look) != text {
      var out := [PG_HBA_MARKER] + RewriteLines(SplitLines(text), to, look);
      MarkerIsMarked(MARKER_START + MARKER_END);
      RejoinContains(out, text, 0, MANAGED_MARKER);
    }
  }

  /**
   * Without the marker check too: no line of the result holds a recognised rule
   * with a weak method, so rewriting the lines again changes none of them.
   */
  lemma LinesAreSettled(lines: seq<string>, to: string, look: Classifier)
    requires Strong(to, look)
    ensures !AnyWeak(RewriteLines(lines, to, look), look)
    ensures RewriteLines(RewriteLines(lines, to, look), to, look) == RewriteLines(lines, to, look)
  {
    forall line: string
      ensures !Weakness(look)(Rewriter(to, look)(line))
      ensures Rewriter(to, look)(Rewriter(to, look)(line)) == Rewriter(to, look)(line)
    {
      NoWeakRuleLeft(line, to, look);
    }
    SettledUpTo(lines, |lines|, Rewriter(to, look), Weakness(look));
    var out := RewriteLines(lines, to, look);
    assert out[..|out|] == out;
  }

  lemma {:induction false} SettledUpTo(lines: seq<string>, n: nat, f: string -> string, p: string -> bool)
    requires n <= |lines| && forall line: string :: !p(f(line)) && f(f(line)) == f(line)
    ensures !AnyFirst(MapFirst(lines, |lines|, f), n, p)
    ensures MapFirst(MapFirst(lines, |lines|, f), n, f) == MapFirst(lines, |lines|, f)[..n]
  {
    if n == 0 {
    } else {
      SettledUpTo(lines, n - 1, f, p);
      MappedAt(lines, |lines|, n - 1, f);
    }
  }

  // ---- which rules those are, told from the words ---------------------------------------------------------

  /** All that is read off a word. */
  lemma LookExactly(word: string)
    ensures var f, low := Look(word), Lower(word);
            && (f.hostType <==> low in HOST_TYPES)
            && (f.replication <==> word == "replication")
            && (f.auth <==> low in AUTH_METHODS)
            && (f.weak <==> low in WEAK_METHODS)
            && (f.loopback <==> Lower(Trim(word[..IndexOf(word, '/')])) in LOOPBACK_ADDRESSES)
  {
    IsOneOfExact(Lower(word), HOST_TYPES);
    IsOneOfExact(Lower(word), AUTH_METHODS);
    IsOneOfExact(Lower(word), WEAK_METHODS);
    IsOneOfExact(Lower(Trim(word[..IndexOf(word, '/')])), LOOPBACK_ADDRESSES);
  }

  ghost predicate IsPlainAddress(a: string) {
    && a != "" && '/' !in a && !IsSpace(a[0]) && !IsSpace(a[|a| - 1])
    && forall i :: 0 <= i < |a| ==> !('A' <= a[i] <= 'Z')
  }

  lemma AddressesArePlain(a: string)
    requires a in LOOPBACK_ADDRESSES
    ensures IsPlainAddress(a)
  {
  }

  lemma PlainTrims(a: string)
    requires a != "" && !IsSpace(a[0]) && !IsSpace(a[|a| - 1])
    ensures Trim(a) == a
  {
  }

  lemma SeenAt(a: string, rest: string)
    requires a in LOOPBACK_ADDRESSES && IsPlainAddress(a) && (rest == "" || rest[0] == '/')
    ensures Look(a + rest).loopback
  {
    IndexOfFirst(a, rest, '/');
    assert (a + rest)[..|a|] == a;
    PlainTrims(a);
    LowerIdentity(a);
    IsOneOfExact(a, LOOPBACK_ADDRESSES);
  }

  /** Every loopback address is recognised, alone or with any prefix length behind a slash. */
  lemma LoopbackIsSeen(a: string, rest: string)
    requires a in LOOPBACK_ADDRESSES && (rest == "" || rest[0] == '/')
    ensures Look(a + rest).loopback
  {
    AddressesArePlain(a);
    SeenAt(a, rest);
  }

  function Words(line: string): (r: seq<string>) {
    WordsOf(Read(line).layout.tokens)
  }

  function WordsOf(tokens: seq<Token>): (r: seq<string>)
    ensures |r| == |tokens| && forall i :: 0 <= i < |r| ==> r[i] == tokens[i].word
  {
    if tokens == [] then [] else [tokens[0].word] + WordsOf(tokens[1..])
  }

  predicate NamesMethod(word: string) { Lower(word) in AUTH_METHODS }

  predicate NamesWeakMethod(word: string) { Lower(word) in WEAK_METHODS }

  /** The i-th word is weak, and no word between the address and it is a method. */
  ghost predicate WeakAt(words: seq<string>, i: nat, weak: string -> bool, method': string -> bool) {
    4 <= i < |words| && weak(words[i]) && forall k :: 4 <= k < i ==> !method'(words[k])
  }

  lemma WeakIsAuth(word: string)
    requires NamesWeakMethod(word)
    ensures NamesMethod(word)
  {
    var low := Lower(word);
    assert AUTH_METHODS[0] == "trust" && AUTH_METHODS[3] == "md5";
    assert AUTH_METHODS[4] == "password" && AUTH_METHODS[7] == "ident";
    assert low in ["ident", "md5", "trust", "password"];
  }

  lemma MethodIsWeak(words: seq<string>, fields: seq<Field>, weak: string -> bool, method': string -> bool)
    requires |words| == |fields| > 4
    requires forall i :: 4 <= i < |words| ==>
               && (fields[i].auth <==> method'(words[i])) && (fields[i].weak <==> weak(words[i]))
               && (fields[i].weak ==> fields[i].auth)
    ensures var i := MethodIndex(fields, 4);
            (i.Some? && fields[i.value].weak) <==> exists k: nat :: WeakAt(words, k, weak, method')
    ensures var i := MethodIndex(fields, 4);
            i.Some? && fields[i.value].weak ==> WeakAt(words, i.value, weak, method')
  {
    var i := MethodIndex(fields, 4);
    if i.Some? && fields[i.value].weak { assert WeakAt(words, i.value, weak, method'); }
    if k: nat :| WeakAt(words, k, weak, method') {
      assert fields[k].auth && forall j :: 4 <= j < k ==> !fields[j].auth;
      assert i == Some(k);
    }
  }

  lemma FieldsAreRead(words: seq<string>, fields: seq<Field>)
    requires |words| == |fields| && forall i :: 0 <= i < |words| ==> fields[i] == Look(words[i])
    ensures forall i :: 0 <= i < |words| ==>
              && (fields[i].auth <==> NamesMethod(words[i])) && (fields[i].weak <==> NamesWeakMethod(words[i]))
              && (fields[i].weak ==> fields[i].auth)
  {
    forall i | 0 <= i < |words|
      ensures fields[i].auth <==> NamesMethod(words[i])
      ensures fields[i].weak <==> NamesWeakMethod(words[i])
      ensures fields[i].weak ==> fields[i].auth
    {
      LookExactly(words[i]);
      if NamesWeakMethod(words[i]) { WeakIsAuth(words[i]); }
    }
  }

  /** The words of a TCP rule, not about replication, for a loopback address. */
  predicate IsLoopbackRule(words: seq<string>) {
    && |words| > 4 && Lower(words[0]) in HOST_TYPES && words[1] != "replication"
    && Lower(Trim(words[3][..IndexOf(words[3], '/')])) in LOOPBACK_ADDRESSES
  }

  lemma RulesAreRecognised(words: seq<string>, fields: seq<Field>)
    requires |words| == |fields| && forall i :: 0 <= i < |words| ==> fields[i] == Look(words[i])
    ensures Recognised(fields) <==> IsLoopbackRule(words)
  {
    if |words| > 4 {
      LookExactly(words[0]);
      LookExactly(words[1]);
      LookExactly(words[3]);
    }
  }

  /**
   * A line is rewritten exactly when it is such a rule and its method is a weak
   * one; and then at its method.
   */
  lemma WeakRuleExactly(line: string)
    ensures IsWeak(line, Look)
            <==> IsLoopbackRule(Words(line)) && exists i: nat :: WeakAt(Words(line), i, NamesWeakMethod, NamesMethod)
    ensures IsWeak(line, Look) ==> WeakAt(Words(line), WeakIn(Read(line), Look).value, NamesWeakMethod, NamesMethod)
  {
    var words, fields := Words(line), FieldsOf(Read(line).layout.tokens, Look);
    RulesAreRecognised(words, fields);
    if |words| > 4 {
      FieldsAreRead(words, fields);
      MethodIsWeak(words, fields, NamesWeakMethod, NamesMethod);
    }
  }

  // ---- the file as it is written ---------------------------------------------------------------------------

  /** A line of a file stays one line, and does not become empty. */
  lemma StaysOneLine(line: string, to: string, look: Classifier)
    requires Strong(to, look) && '\n' !in line
    ensures '\n' !in RewriteLine(line, to, look)
    ensures line != "" ==> RewriteLine(line, to, look) != ""
  {
    var row := Read(line);
    if WeakIn(row, look).Some? {
      OnlyTheMethodChanges(line, to, look);
      assert Parse("").tokens == [];
      assert RewriteRow(row, to, look).layout.tokens != [];
      ReadIsReadable(line);
      BreakStaysAbsent(row, WeakIn(row, look).value, to);
    }
  }

  lemma BreakStaysAbsent(row: Row, i: nat, word: string)
    requires '\n' !in TextOf(row) && i < |row.layout.tokens| && NoSpace(word)
    ensures '\n' !in TextOf(row.(layout := ReplaceWord(row.layout, i, word)))
  {
    var l := row.layout;
    AbsentInParts(PrintTokens(l.tokens), l.tail, row.comment, '\n');
    AbsentInTokens(l.tokens, '\n', i, word);
  }

  lemma MarkerIsNoRule(marker: string, to: string, look: Classifier)
    requires marker != "" && marker[0] == '#'
    ensures !IsWeak(marker, look) && RewriteLine(marker, to, look) == marker
  {
    assert IndexOf(marker, '#') == 0 && marker[..0] == "" && Parse("").tokens == [];
  }

  lemma MarkerStartIsOneLine()
    ensures '\n' !in MARKER_START
  {
    assert '\n' !in " -- loopback host rules ";
    assert '\n' !in "set to scram-sha-256; ";
  }

  lemma MarkerEndIsOneLine()
    ensures '\n' !in MARKER_END
  {
    assert '\n' !in "the file as it was is ";
    assert '\n' !in "beside this one, as ";
    assert '\n' !in "pg_hba.conf.orig";
  }

  lemma MarkerIsALine()
    ensures PG_HBA_MARKER != "" && PG_HBA_MARKER[0] == '#' && '\n' !in PG_HBA_MARKER
  {
    MarkerStartIsOneLine();
    MarkerEndIsOneLine();
    assert '\n' !in MANAGED_MARKER;
  }

  /** An edited file reads back as the marker and the rewritten lines. */
  lemma FileReadsBack(text: string, to: string, look: Classifier)
    requires Strong(to, look) && !Contains(text, MANAGED_MARKER) && AnyWeak(SplitLines(text), look)
    ensures SplitLines(RewriteText(text, to, look)) == [PG_HBA_MARKER] + RewriteLines(SplitLines(text), to, look)
  {
    var lines := SplitLines(text);
    var out := RewriteLines(lines, to, look);
    LastLine(text);
    MarkerIsALine();
    forall i | 0 <= i < |out| ensures '\n' !in out[i] && (lines[i] != "" ==> out[i] != "") {
      MappedAt(lines, |lines|, i, Rewriter(to, look));
      assert lines[i] in lines;
      StaysOneLine(lines[i], to, look);
    }
    SplitRejoin([PG_HBA_MARKER] + out, text);
  }

  lemma {:induction false} UnchangedUpTo(lines: seq<string>, n: nat, f: string -> string)
    requires n <= |lines| && forall i :: 0 <= i < n ==> f(lines[i]) == lines[i]
    ensures MapFirst(lines, n, f) == lines[..n]
  {
    if n == 0 {
    } else {
      UnchangedUpTo(lines, n - 1, f);
    }
  }

  lemma NoneWeakUnchanged(lines: seq<string>, to: string, look: Classifier)
    requires forall i :: 0 <= i < |lines| ==> !IsWeak(lines[i], look)
    ensures !AnyWeak(lines, look) && RewriteLines(lines, to, look) == lines
  {
    AnyFirstExact(lines, |lines|, Weakness(look));
    UnchangedUpTo(lines, |lines|, Rewriter(to, look));
  }

  /**
   * No line of the file that is written, the marker included, holds a recognised
   * rule with a weak method, and rewriting its lines again changes none of them.
   */
  lemma FileIsSettled(text: string, to: string, look: Classifier)
    requires Strong(to, look) && !Contains(text, MANAGED_MARKER)
    ensures var lines := SplitLines(RewriteText(text, to, look));
            !AnyWeak(lines, look) && RewriteLines(lines, to, look) == lines
  {
    var lines := SplitLines(RewriteText(text, to, look));
    if !AnyWeak(SplitLines(text), look) {
      AnyFirstExact(lines, |lines|, Weakness(look));
    } else {
      var out := RewriteLines(SplitLines(text), to, look);
      FileReadsBack(text, to, look);
      LinesAreSettled(SplitLines(text), to, look);
      AnyFirstExact(out, |out|, Weakness(look));
      MarkerIsALine();
      MarkerIsNoRule(PG_HBA_MARKER, to, look);
      forall i | 0 <= i < |lines| ensures !IsWeak(lines[i], look) {
        if i > 0 { assert lines[i] == out[i - 1]; }
      }
    }
    NoneWeakUnchanged(lines, to, look);
  }
}
