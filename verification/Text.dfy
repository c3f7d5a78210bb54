/** String helpers shared by the mail and deployment models. ASCII only: see README. */
module Text {

  /** What a file the deployer has edited carries. */
  const MANAGED_MARKER := "# managed by dsr_deploy"

  predicate IsSpace(c: char) { c == ' ' || c == '\t' || c == '\n' || c == '\r' || c == '\U{000B}' || c == '\U{000C}' }

  function TrimLeft(s: string): (r: string)
    ensures r == "" || !IsSpace(r[0])
    ensures |r| <= |s|
  {
    if s == "" || !IsSpace(s[0]) then s else TrimLeft(s[1..])
  }

  function TrimRight(s: string): (r: string)
    ensures r == "" || !IsSpace(r[|r| - 1])
    ensures |r| <= |s| && (r != "" ==> r[0] == s[0])
  {
    if s == "" || !IsSpace(s[|s| - 1]) then s else TrimRight(s[..|s| - 1])
  }

  function Trim(s: string): (r: string)
    ensures r == "" || (!IsSpace(r[0]) && !IsSpace(r[|r| - 1]))
  {
    TrimRight(TrimLeft(s))
  }

  predicate Blank(s: string) { s == "" || (IsSpace(s[0]) && Blank(s[1..])) }

  lemma {:induction false} BlankAppend(s: string, c: char)
    requires Blank(s) && IsSpace(c)
    ensures Blank(s + [c])
  {
    if s == "" {
      assert s + [c] == [c] && [c][1..] == "";
    } else {
      BlankAppend(s[1..], c);
      assert (s + [c])[0] == s[0] && (s + [c])[1..] == s[1..] + [c];
    }
  }

  lemma {:induction false} TrimLeftCuts(s: string) returns (before: string)
    ensures Blank(before) && s == before + TrimLeft(s)
  {
    if s == "" || !IsSpace(s[0]) {
      before := "";
      assert s == before + s;
    } else {
      var rest := TrimLeftCuts(s[1..]);
      before := [s[0]] + rest;
      assert before[1..] == rest;
      assert s == [s[0]] + s[1..];
    }
  }

  lemma {:induction false} TrimRightCuts(s: string) returns (after: string)
    ensures Blank(after) && s == TrimRight(s) + after
  {
    if s == "" || !IsSpace(s[|s| - 1]) {
      after := "";
      assert s == s + after;
    } else {
      var rest := TrimRightCuts(s[..|s| - 1]);
      BlankAppend(rest, s[|s| - 1]);
      after := rest + [s[|s| - 1]];
      assert s == s[..|s| - 1] + [s[|s| - 1]];
      assert TrimRight(s) + after == TrimRight(s) + rest + [s[|s| - 1]];
    }
  }

  lemma {:induction false} TrimLeftSkips(blank: string, s: string)
    requires s != "" && !IsSpace(s[0]) && Blank(blank)
    ensures TrimLeft(blank + s) == s
  {
    if blank == "" {
      assert blank + s == s;
    } else {
      TrimLeftSkips(blank[1..], s);
      assert (blank + s)[0] == blank[0] && (blank + s)[1..] == blank[1..] + s;
    }
  }

  lemma {:induction false} TrimRightKeepsStart(s: string)
    requires s != "" && !IsSpace(s[0])
    ensures TrimRight(s) != "" && TrimRight(s)[0] == s[0]
  {
    if IsSpace(s[|s| - 1]) { TrimRightKeepsStart(s[..|s| - 1]); }
  }

  lemma {:induction false} BlankTrims(s: string)
    requires Blank(s)
    ensures TrimLeft(s) == "" && TrimRight(s) == ""
  {
    if s == "" {
    } else {
      BlankTrims(s[1..]);
      TrimRightBlankFirst(s[0], s[1..]);
      assert s == [s[0]] + s[1..];
    }
  }

  /** Trimming takes the blank ends off, and nothing else. */
  lemma TrimCuts(s: string) returns (before: string, after: string)
    ensures Blank(before) && Blank(after) && s == before + Trim(s) + after
  {
    before := TrimLeftCuts(s);
    after := TrimRightCuts(TrimLeft(s));
    assert before + (Trim(s) + after) == before + Trim(s) + after;
  }

  /** What trimming leaves of a string that ends its own way. */
  lemma {:induction false} TrimRightAppend(a: string, v: string)
    requires a != "" && !IsSpace(a[|a| - 1])
    ensures TrimRight(a + v) == a + TrimRight(v)
  {
    if v == "" {
      assert a + v == a;
    } else {
      assert (a + v)[|a + v| - 1] == v[|v| - 1];
      if IsSpace(v[|v| - 1]) {
        TrimRightAppend(a, v[..|v| - 1]);
        assert (a + v)[..|a + v| - 1] == a + v[..|v| - 1];
      }
    }
  }

  lemma {:induction false} TrimRightBlankFirst(c: char, w: string)
    ensures TrimRight(w) != "" ==> TrimRight([c] + w) == [c] + TrimRight(w)
    ensures TrimRight(w) == "" && IsSpace(c) ==> TrimRight([c] + w) == ""
  {
    if w == "" {
      assert [c] + w == [c] && [c][..0] == "";
    } else {
      assert ([c] + w)[|w|] == w[|w| - 1];
      if IsSpace(w[|w| - 1]) {
        TrimRightBlankFirst(c, w[..|w| - 1]);
        assert ([c] + w)[..|w|] == [c] + w[..|w| - 1];
      }
    }
  }

  lemma {:induction false} TrimsCommute(v: string)
    ensures TrimLeft(TrimRight(v)) == TrimRight(TrimLeft(v))
  {
    if v == "" {
    } else {
      var c, w := v[0], v[1..];
      assert v == [c] + w;
      TrimRightBlankFirst(c, w);
      if IsSpace(c) {
        TrimsCommute(w);
        if TrimRight(w) != "" { assert ([c] + TrimRight(w))[1..] == TrimRight(w); }
      } else {
        TrimRightAppend([c], w);
      }
    }
  }

  /** Trimming the right end first makes no difference. */
  lemma TrimAfterTrimRight(v: string)
    ensures Trim(TrimRight(v)) == Trim(v)
  {
    TrimsCommute(v);
  }

  lemma TrimOfStart(start: string, value: string)
    requires start != "" && !IsSpace(start[0]) && !IsSpace(start[|start| - 1])
    ensures Trim(start + value) == start + TrimRight(value)
  {
    assert (start + value)[0] == start[0];
    assert TrimLeft(start + value) == start + value;
    TrimRightAppend(start, value);
  }

  function LowerChar(c: char): char {
    if 'A' <= c <= 'Z' then (c as int - 'A' as int + 'a' as int) as char else c
  }

  function Lower(s: string): (r: string)
    ensures |r| == |s|
  {
    if s == "" then "" else [LowerChar(s[0])] + Lower(s[1..])
  }

  /** Character by character: a capital becomes its small letter, and nothing else changes. */
  lemma {:induction false} LowerAt(s: string, i: nat)
    requires i < |s|
    ensures Lower(s)[i] == if 'A' <= s[i] <= 'Z' then (s[i] as int + 32) as char else s[i]
  {
    if i == 0 {
    } else {
      LowerAt(s[1..], i - 1);
    }
  }

  /** The items of a list, each at its first occurrence. */
  function Distinct<T(==)>(items: seq<T>): (r: seq<T>)
    ensures forall i, j :: 0 <= i < j < |r| ==> r[i] != r[j]
    ensures forall i :: 0 <= i < |r| ==> r[i] in items
    ensures forall i :: 0 <= i < |items| ==> items[i] in r
  {
    if items == [] then []
    else
      var front, last := Distinct(items[..|items| - 1]), items[|items| - 1];
      assert items == items[..|items| - 1] + [last];
      if last in front then front else front + [last]
  }

  // ---- substrings and lines ------------------------------------------------------------------

  /** `w in s`, Python's substring test. */
  predicate Contains(s: string, w: string) { exists p :: 0 <= p <= |s| && w <= s[p..] }

  function CountOf(s: string, c: char): nat {
    if s == "" then 0 else CountOf(s[..|s| - 1], c) + if s[|s| - 1] == c then 1 else 0
  }

  lemma {:induction false} CountConcat(a: string, b: string, c: char)
    ensures CountOf(a + b, c) == CountOf(a, c) + CountOf(b, c)
  {
    if b == "" {
      assert a + b == a;
    } else {
      CountConcat(a, b[..|b| - 1], c);
      assert (a + b)[..|a + b| - 1] == a + b[..|b| - 1];
    }
  }

  lemma {:induction false} CountAbsent(s: string, c: char)
    requires c !in s
    ensures CountOf(s, c) == 0
  {
    if s == "" {
    } else {
      CountAbsent(s[..|s| - 1], c);
    }
  }

  function IndexOf(s: string, c: char): (i: nat)
    ensures i <= |s| && c !in s[..i]
    ensures i < |s| ==> s[i] == c
  {
    if s == "" || s[0] == c then 0
    else
      var i := IndexOf(s[1..], c) + 1;
      assert s[..i] == [s[0]] + s[1..][..i - 1];
      i
  }

  lemma {:induction false} IndexOfFirst(a: string, b: string, c: char)
    requires c !in a && (b == "" || b[0] == c)
    ensures IndexOf(a + b, c) == |a|
  {
    if a == "" {
      assert a + b == b;
    } else {
      IndexOfFirst(a[1..], b, c);
      assert (a + b)[0] == a[0] && (a + b)[1..] == a[1..] + b;
    }
  }

  /** Lines ended by a newline; what follows the last newline is a line unless empty. */
  function SplitLines(s: string): (lines: seq<string>)
    ensures forall l :: l in lines ==> '\n' !in l
    decreases |s|
  {
    if s == "" then []
    else
      var i := IndexOf(s, '\n');
      [s[..i]] + if i == |s| then [] else SplitLines(s[i + 1..])
  }

  function JoinLines(lines: seq<string>): string {
    if lines == [] then ""
    else if |lines| == 1 then lines[0]
    else lines[0] + "\n" + JoinLines(lines[1..])
  }

  predicate EndsLine(s: string) { s != "" && s[|s| - 1] == '\n' }

  /** The lines rejoined the way both rewriters do it. */
  function Rejoin(lines: seq<string>, original: string): string {
    JoinLines(lines) + if EndsLine(original) then "\n" else ""
  }

  lemma ContainsIn(s: string, a: string, b: string, w: string)
    requires Contains(s, w)
    ensures Contains(a + s + b, w)
  {
    var p :| 0 <= p <= |s| && w <= s[p..];
    assert (a + s + b)[|a| + p..] == s[p..] + b;
  }

  lemma {:induction false} JoinContains(lines: seq<string>, i: nat, w: string)
    requires i < |lines| && Contains(lines[i], w)
    ensures Contains(JoinLines(lines), w)
  {
    if |lines| == 1 {
    } else if i == 0 {
      ContainsIn(lines[0], "", "\n" + JoinLines(lines[1..]), w);
      assert "" + lines[0] + ("\n" + JoinLines(lines[1..])) == JoinLines(lines);
    } else {
      JoinContains(lines[1..], i - 1, w);
      ContainsIn(JoinLines(lines[1..]), lines[0] + "\n", "", w);
      assert lines[0] + "\n" + JoinLines(lines[1..]) + "" == JoinLines(lines);
    }
  }

  lemma RejoinContains(lines: seq<string>, original: string, i: nat, w: string)
    requires i < |lines| && Contains(lines[i], w)
    ensures Contains(Rejoin(lines, original), w)
  {
    JoinContains(lines, i, w);
    ContainsIn(JoinLines(lines), "", if EndsLine(original) then "\n" else "", w);
    assert "" + JoinLines(lines) == JoinLines(lines);
  }

  lemma {:induction false} JoinLacks(lines: seq<string>, c: char)
    requires c != '\n' && forall l :: l in lines ==> c !in l
    ensures c !in JoinLines(lines)
  {
    if |lines| <= 1 {
    } else {
      JoinLacks(lines[1..], c);
    }
  }

  /** A text that does not end its last line has one that is not empty. */
  lemma {:induction false} LastLine(s: string)
    ensures s != "" ==> SplitLines(s) != []
    ensures s != "" && !EndsLine(s) ==> SplitLines(s)[|SplitLines(s)| - 1] != ""
    decreases |s|
  {
    if s == "" || IndexOf(s, '\n') == |s| {
    } else {
      LastLine(s[IndexOf(s, '\n') + 1..]);
    }
  }

  lemma SplitFirst(line: string, rest: string)
    requires '\n' !in line
    ensures SplitLines(line + "\n" + rest) == [line] + SplitLines(rest)
  {
    IndexOfFirst(line, "\n" + rest, '\n');
    assert line + "\n" + rest == line + ("\n" + rest);
    assert (line + "\n" + rest)[..|line|] == line && (line + "\n" + rest)[|line| + 1..] == rest;
  }

  lemma SplitLast(line: string)
    requires '\n' !in line && line != ""
    ensures SplitLines(line) == [line]
  {
    assert IndexOf(line, '\n') == |line| && line[..|line|] == line;
  }

  lemma RejoinCons(line: string, rest: seq<string>, original: string)
    requires rest != []
    ensures Rejoin([line] + rest, original) == line + "\n" + Rejoin(rest, original)
  {
    assert ([line] + rest)[1..] == rest;
  }

  lemma RejoinOne(line: string, original: string)
    ensures Rejoin([line], original) == if EndsLine(original) then line + "\n" + "" else line
  {
    assert line + "\n" + "" == line + "\n" && line + "" == line;
  }

  /** Rejoined lines split back into themselves. */
  lemma {:induction false} SplitRejoin(lines: seq<string>, original: string)
    requires lines != [] && forall l :: l in lines ==> '\n' !in l
    requires EndsLine(original) || lines[|lines| - 1] != ""
    ensures SplitLines(Rejoin(lines, original)) == lines
  {
    if |lines| == 1 {
      assert lines == [lines[0]];
      RejoinOne(lines[0], original);
      if EndsLine(original) { SplitFirst(lines[0], ""); } else { SplitLast(lines[0]); }
    } else {
      SplitRejoin(lines[1..], original);
      SplitFirst(lines[0], Rejoin(lines[1..], original));
      RejoinCons(lines[0], lines[1..], original);
      assert lines == [lines[0]] + lines[1..];
    }
  }
}
