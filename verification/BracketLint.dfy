/**
 The editor's bracket check and the jump from a diagnostic back into the text. Text is a sequence of UTF-16 code
 units, as the browser indexes it.
 */
module BracketLint {

  predicate IsOpener(c: char) { c == '(' || c == '[' || c == '{' }

  predicate IsCloser(c: char) { c == ')' || c == ']' || c == '}' }

  function CloserOf(c: char): char {
    if c == '(' then ')' else if c == '[' then ']' else '}'
  }

  // ------------------------------------------------------------------ the scan

  /** Line and column as the scan counts them: lines from 1, columns from 1 at a line's first character. */
  datatype Cursor = Cursor(line: nat, col: nat)

  datatype Open = Open(ch: char, at: Cursor)

  datatype Diagnostic = Unmatched(ch: char, at: Cursor) | Unclosed(ch: char, at: Cursor)

  /** The cursor after the first i characters. */
  function CursorAfter(text: string, i: nat): Cursor
    requires i <= |text|
  {
    if i == 0 then Cursor(1, 0)
    else
      var c := CursorAfter(text, i - 1);
      if text[i - 1] == '\n' then Cursor(c.line + 1, 0) else Cursor(c.line, c.col + 1)
  }

  datatype State = State(stack: seq<Open>, diags: seq<Diagnostic>)

  /** A closing bracket always takes the top of the stack, matching or not. */
  function Read(s: State, c: char, at: Cursor): State {
    if IsOpener(c) then s.(stack := s.stack + [Open(c, at)])
    else if IsCloser(c) then
      var matched := s.stack != [] && CloserOf(s.stack[|s.stack| - 1].ch) == c;
      State(if s.stack == [] then [] else s.stack[..|s.stack| - 1],
            if matched then s.diags else s.diags + [Unmatched(c, at)])
    else s
  }

  function Scan(text: string, i: nat): State
    requires i <= |text|
  {
    if i == 0 then State([], []) else Read(Scan(text, i - 1), text[i - 1], CursorAfter(text, i))
  }

  /** What is left open is reported from the top of the stack down. */
  function Leftovers(stack: seq<Open>): seq<Diagnostic> {
    if stack == [] then []
    else
      var top := stack[|stack| - 1];
      [Unclosed(top.ch, top.at)] + Leftovers(stack[..|stack| - 1])
  }

  function Lint(text: string): seq<Diagnostic> {
    var s := Scan(text, |text|);
    s.diags + Leftovers(s.stack)
  }

  // ------------------------------------------------------------------ the grammar

  /** Balanced words: nothing, or a balanced word in brackets followed by a balanced word. */
  datatype Dyck = Empty | Wrap(opener: char, inner: Dyck, rest: Dyck)

  predicate WellFormed(d: Dyck) {
    d.Wrap? ==> IsOpener(d.opener) && WellFormed(d.inner) && WellFormed(d.rest)
  }

  function Yield(d: Dyck): string {
    match d
    case Empty => ""
    case Wrap(o, inner, rest) => [o] + Yield(inner) + [CloserOf(o)] + Yield(rest)
  }

  ghost predicate IsBalanced(w: string) {
    exists d :: WellFormed(d) && Yield(d) == w
  }

  function Brackets(text: string): string {
    if text == "" then ""
    else (if IsOpener(text[0]) || IsCloser(text[0]) then [text[0]] else []) + Brackets(text[1..])
  }

  // ------------------------------------------------------------------ the grammar decided with a stack

  /** The word closes exactly the stack, each bracket by its own. */
  predicate Closes(stack: seq<char>, w: string)
    decreases |w|
  {
    if w == "" then stack == []
    else if IsOpener(w[0]) then Closes(stack + [w[0]], w[1..])
    else IsCloser(w[0]) && stack != [] && CloserOf(stack[|stack| - 1]) == w[0] && Closes(stack[..|stack| - 1], w[1..])
  }

  lemma Unwrap(o: char, a: string, c: char, b: string, rest: string)
    ensures ([o] + a + [c] + b) + rest == [o] + (a + ([c] + (b + rest)))
  {
  }

  lemma {:induction false} BalancedIsSkipped(d: Dyck, stack: seq<char>, rest: string)
    requires WellFormed(d)
    ensures Closes(stack, Yield(d) + rest) == Closes(stack, rest)
  {
    match d
    case Empty =>
      assert Yield(d) + rest == rest;
    case Wrap(o, inner, after) =>
      Unwrap(o, Yield(inner), CloserOf(o), Yield(after), rest);
      var tail := [CloserOf(o)] + (Yield(after) + rest);
      var body := Yield(inner) + tail;
      assert ([o] + body)[1..] == body;
      BalancedIsSkipped(inner, stack + [o], tail);
      assert tail[1..] == Yield(after) + rest;
      assert (stack + [o])[..|stack|] == stack;
      BalancedIsSkipped(after, stack, rest);
  }

  /** Each open bracket's closer, topmost first, with a balanced word after it. */
  function Closings(stack: seq<char>, ds: seq<Dyck>): string
    requires |ds| == |stack|
  {
    if stack == [] then ""
    else [CloserOf(stack[|stack| - 1])] + Yield(ds[0]) + Closings(stack[..|stack| - 1], ds[1..])
  }

  lemma Regroup(o: char, a: string, c: char, b: string, rest: string)
    ensures [o] + (a + ([c] + b + rest)) == ([o] + a + [c] + b) + rest
  {
  }

  lemma OpenerParses(stack: seq<char>, o: char, inner: Dyck, after: seq<Dyck>)
    requires |after| == |stack| + 1
    ensures [o] + (Yield(inner) + Closings(stack + [o], after))
         == Yield(Wrap(o, inner, after[0])) + Closings(stack, after[1..])
  {
    assert (stack + [o])[..|stack|] == stack;
    Regroup(o, Yield(inner), CloserOf(o), Yield(after[0]), Closings(stack, after[1..]));
  }

  lemma CloserParses(stack: seq<char>, first: Dyck, later: seq<Dyck>)
    requires stack != [] && |later| == |stack| - 1
    ensures var c := CloserOf(stack[|stack| - 1]);
            [c] + (Yield(first) + Closings(stack[..|stack| - 1], later))
            == Yield(Empty) + Closings(stack, [first] + later)
  {
    assert ([first] + later)[1..] == later;
  }

  /** Whatever closes a stack parses into a balanced word and the closings of the stack. */
  lemma {:induction false} ClosingParses(stack: seq<char>, w: string) returns (d: Dyck, ds: seq<Dyck>)
    requires Closes(stack, w)
    ensures |ds| == |stack| && WellFormed(d) && (forall i :: 0 <= i < |ds| ==> WellFormed(ds[i]))
    ensures w == Yield(d) + Closings(stack, ds)
    decreases |w|
  {
    if w == "" {
      d, ds := Empty, [];
    } else {
      assert w == [w[0]] + w[1..];
      if IsOpener(w[0]) {
        var inner, after := ClosingParses(stack + [w[0]], w[1..]);
        OpenerParses(stack, w[0], inner, after);
        d, ds := Wrap(w[0], inner, after[0]), after[1..];
      } else {
        var first, later := ClosingParses(stack[..|stack| - 1], w[1..]);
        CloserParses(stack, first, later);
        d, ds := Empty, [first] + later;
      }
    }
  }

  lemma BalancedMeansCloses(w: string)
    ensures IsBalanced(w) <==> Closes([], w)
  {
    if IsBalanced(w) {
      var d :| WellFormed(d) && Yield(d) == w;
      BalancedIsSkipped(d, [], "");
      assert w + "" == w;
    }
    if Closes([], w) {
      var d, ds := ClosingParses([], w);
      assert WellFormed(d) && Yield(d) == w;
    }
  }

  // ------------------------------------------------------------------ the scan decides the grammar

  function Chars(stack: seq<Open>): (r: seq<char>)
    ensures |r| == |stack|
  {
    seq(|stack|, i requires 0 <= i < |stack| => stack[i].ch)
  }

  /** While no diagnostic was made, the whole is balanced just when the rest closes the stack; after one it is not. */
  ghost predicate Decides(text: string, i: nat)
    requires i <= |text|
  {
    var s := Scan(text, i);
    if s.diags == [] then Closes([], Brackets(text)) <==> Closes(Chars(s.stack), Brackets(text[i..]))
    else !Closes([], Brackets(text))
  }

  lemma {:induction false} ScanDecides(text: string, i: nat)
    requires i <= |text|
    ensures Decides(text, i)
  {
    if i == 0 {
      assert text[0..] == text;
      assert Chars([]) == [];
    } else {
      ScanDecides(text, i - 1);
      var s, c := Scan(text, i - 1), text[i - 1];
      var rest := text[i - 1..];
      assert rest[1..] == text[i..];
      var s' := Scan(text, i);
      if IsOpener(c) {
        assert Chars(s'.stack) == Chars(s.stack) + [c];
        assert Brackets(rest)[1..] == Brackets(text[i..]);
      } else if IsCloser(c) {
        assert Brackets(rest)[1..] == Brackets(text[i..]);
        if s.stack != [] { assert Chars(s'.stack) == Chars(s.stack)[..|s.stack| - 1]; }
      } else {
        assert Brackets(rest) == Brackets(text[i..]);
      }
    }
  }

  /** The scan reports nothing exactly on texts whose brackets are balanced. */
  lemma CleanMeansBalanced(text: string)
    ensures Lint(text) == [] <==> IsBalanced(Brackets(text))
  {
    var s := Scan(text, |text|);
    ScanDecides(text, |text|);
    assert text[|text|..] == "";
    BalancedMeansCloses(Brackets(text));
    assert Chars(s.stack) == [] <==> s.stack == [];
  }

  /** The three pairs are the only balanced words of two characters, and nothing but brackets is reported. */
  lemma ThreePairs(o: char, c: char)
    ensures IsBalanced([o, c]) <==> [o, c] == "()" || [o, c] == "[]" || [o, c] == "{}"
    ensures Lint([c]) == [] <==> c !in "()[]{}"
  {
    BalancedMeansCloses([o, c]);
    assert Closes([], [o, c]) == (IsOpener(o) && Closes([o], [c])) by {
      assert [o, c][1..] == [c] && [] + [o] == [o];
    }
    assert Closes([o], [c]) ==> IsCloser(c) && CloserOf(o) == c by {
      assert [c][1..] == "" && !Closes([o] + [c], "");
    }
    assert IsOpener(o) && CloserOf(o) == c ==> Closes([o], [c]) by {
      assert [c][1..] == "" && [o][..0] == [];
    }
    assert Lint([c]) == [] <==> !IsOpener(c) && !IsCloser(c) by {
      assert Scan([c], 1) == Read(State([], []), c, CursorAfter([c], 1));
    }
  }

  // ------------------------------------------------------------------ jumping back

  /** Splitting at line feeds. */
  function Lines(text: string): (r: seq<string>)
    ensures r != []
  {
    if text == "" then [""]
    else
      var more := Lines(text[1..]);
      if text[0] == '\n' then [""] + more else [[text[0]] + more[0]] + more[1..]
  }

  /** The characters of the first n lines, line feeds included. */
  function LengthOf(lines: seq<string>, n: nat): nat {
    if n == 0 || lines == [] then 0 else |lines[0]| + 1 + LengthOf(lines[1..], n - 1)
  }

  function Clamp(x: int, high: nat): nat {
    if x <= 0 then 0 else if x > high then high else x
  }

  /** The offset the editor jumps to; lines beyond the end count as empty. */
  function JumpTo(content: string, line: int, column: int): nat {
    var lines := Lines(content);
    LengthOf(lines, if line <= 1 then 0 else line - 1)
    + Clamp(column - 1, if 1 <= line <= |lines| then |lines[line - 1]| else 0)
  }

  function LineStart(text: string, i: nat): nat
    requires i <= |text|
  {
    if i == 0 then 0 else if text[i - 1] == '\n' then i else LineStart(text, i - 1)
  }

  lemma {:induction false} CursorCountsFromLineStart(text: string, i: nat)
    requires i <= |text|
    ensures LineStart(text, i) <= i && CursorAfter(text, i).col == i - LineStart(text, i)
    ensures CursorAfter(text, i).line >= 1
  {
    if i > 0 { CursorCountsFromLineStart(text, i - 1); }
  }

  lemma {:induction false} DropFirst(text: string, i: nat)
    requires 0 < i <= |text|
    ensures var c, rest := text[0], text[1..];
            && CursorAfter(text, i).line == CursorAfter(rest, i - 1).line + (if c == '\n' then 1 else 0)
            && LineStart(text, i)
               == (if c == '\n' || CursorAfter(rest, i - 1).line > 1 then LineStart(rest, i - 1) + 1 else 0)
  {
    CursorCountsFromLineStart(text[1..], i - 1);
    if i > 1 {
      DropFirst(text, i - 1);
      CursorCountsFromLineStart(text[1..], i - 2);
      assert text[1..][i - 2] == text[i - 1];
    }
  }

  lemma LongerFirstLine(c: char, more: seq<string>, n: nat)
    requires more != []
    ensures var lines := [[c] + more[0]] + more[1..]; LengthOf(lines, n) == LengthOf(more, n) + (if n > 0 then 1 else 0)
  {
    assert ([[c] + more[0]] + more[1..])[1..] == more[1..];
  }

  lemma EmptyFirstLine(more: seq<string>, n: nat)
    requires n > 0
    ensures LengthOf([""] + more, n) == 1 + LengthOf(more, n - 1)
  {
    assert ([""] + more)[1..] == more;
  }

  /** Line n of the content starts at `start` and reaches past `i`. */
  predicate LineAt(content: string, n: int, start: int, i: int) {
    var lines := Lines(content);
    0 <= n < |lines| && LengthOf(lines, n) == start && |lines[n]| > i - start
  }

  /** The lines before a character's line add up to where its line starts, and its line reaches past it. */
  lemma {:induction false} LineHolds(content: string, i: nat)
    requires i < |content| && content[i] != '\n'
    ensures LineAt(content, CursorAfter(content, i).line - 1, LineStart(content, i), i)
  {
    CursorCountsFromLineStart(content, i);
    if i > 0 {
      var rest := content[1..];
      LineHolds(rest, i - 1);
      DropFirst(content, i);
      var n := CursorAfter(content, i).line - 1;
      if content[0] == '\n' { EmptyFirstLine(Lines(rest), n); } else { LongerFirstLine(content[0], Lines(rest), n); }
    }
  }

  lemma {:induction false} SameFeedsSameCursor(text: string, content: string, i: nat)
    requires i <= |text| && i <= |content| && forall j :: 0 <= j < i ==> (text[j] == '\n' <==> content[j] == '\n')
    ensures CursorAfter(text, i) == CursorAfter(content, i)
  {
    if i > 0 { SameFeedsSameCursor(text, content, i - 1); }
  }

  /**
   Jumping to the position the scan tracked for a character leads back to that character, also when the checked text
   is a truncated copy of the content: all that matters is that line feeds agree up to it.
   */
  lemma JumpUndoesScan(text: string, content: string, i: nat)
    requires i < |text| && i < |content| && text[i] != '\n'
    requires forall j :: 0 <= j <= i ==> (text[j] == '\n' <==> content[j] == '\n')
    ensures var at := CursorAfter(text, i + 1); JumpTo(content, at.line, at.col) == i
  {
    SameFeedsSameCursor(text, content, i + 1);
    CursorCountsFromLineStart(content, i);
    LineHolds(content, i);
    var before, at := CursorAfter(content, i), CursorAfter(content, i + 1);
    assert at == Cursor(before.line, before.col + 1);
  }

  // ------------------------------------------------------------------ jumping anywhere

  /** The cursor, from the first character on. */
  lemma {:induction false} CursorFromFront(text: string, i: nat)
    requires 0 < i <= |text|
    ensures var c := CursorAfter(text[1..], i - 1);
            CursorAfter(text, i) == if text[0] == '\n' then Cursor(c.line + 1, c.col)
                                    else Cursor(c.line, if c.line == 1 then c.col + 1 else c.col)
  {
    CursorCountsFromLineStart(text[1..], i - 1);
    if i == 1 {
      assert CursorAfter(text, 0) == Cursor(1, 0);
    } else {
      CursorFromFront(text, i - 1);
      CursorCountsFromLineStart(text[1..], i - 2);
      assert text[1..][i - 2] == text[i - 1];
    }
  }

  /** Nothing is left of the line. */
  predicate EndOfLine(content: string, pos: nat) {
    pos == |content| || (pos < |content| && content[pos] == '\n')
  }

  /** Column c of line n is where the lines before it and c characters lead, and its last column is the line's end. */
  ghost predicate LineIs(content: string, n: nat, c: nat) {
    var lines := Lines(content);
    n < |lines| && c <= |lines[n]| ==>
      var pos := LengthOf(lines, n) + c;
      && pos <= |content| && CursorAfter(content, pos) == Cursor(n + 1, c)
      && (EndOfLine(content, pos) <==> c == |lines[n]|)
  }

  /** A line feed in front puts every position one line further down. */
  lemma BehindFeed(content: string, n: nat, c: nat)
    requires content != "" && content[0] == '\n' && n > 0 && LineIs(content[1..], n - 1, c)
    ensures LineIs(content, n, c)
  {
    var lines, more := Lines(content), Lines(content[1..]);
    if n < |lines| && c <= |lines[n]| {
      EmptyFirstLine(more, n);
      CursorFromFront(content, LengthOf(lines, n) + c);
    }
  }

  /** Any other character in front moves the later lines one character on. */
  lemma BehindChar(content: string, n: nat, c: nat)
    requires content != "" && content[0] != '\n' && n > 0 && LineIs(content[1..], n, c)
    ensures LineIs(content, n, c)
  {
    var lines, more := Lines(content), Lines(content[1..]);
    if n < |lines| && c <= |lines[n]| {
      LongerFirstLine(content[0], more, n);
      CursorFromFront(content, LengthOf(lines, n) + c);
    }
  }

  lemma {:induction false} LinesAreLines(content: string, n: nat, c: nat)
    ensures LineIs(content, n, c)
    decreases |content|
  {
    if content != "" {
      var rest := content[1..];
      if n > 0 && content[0] == '\n' {
        LinesAreLines(rest, n - 1, c);
        BehindFeed(content, n, c);
      } else if n > 0 {
        LinesAreLines(rest, n, c);
        BehindChar(content, n, c);
      } else if c > 0 && c <= |Lines(content)[0]| {
        LinesAreLines(rest, 0, c - 1);
        CursorFromFront(content, c);
      }
    }
  }

  lemma {:induction false} AllLines(content: string)
    ensures LengthOf(Lines(content), |Lines(content)|) == |content| + 1
    ensures CursorAfter(content, |content|).line == |Lines(content)|
  {
    if content != "" {
      var rest, more := content[1..], Lines(content[1..]);
      AllLines(rest);
      CursorFromFront(content, |content|);
      if content[0] == '\n' { EmptyFirstLine(more, |more| + 1); } else { LongerFirstLine(content[0], more, |more|); }
    }
  }

  lemma {:induction false} NoMoreLines(lines: seq<string>, n: nat)
    requires n >= |lines|
    ensures LengthOf(lines, n) == LengthOf(lines, |lines|)
  {
    if lines != [] { NoMoreLines(lines[1..], n - 1); }
  }

  /** The cursor stands in that column of the line, or at the line's end if it is shorter. */
  predicate LandsAt(content: string, pos: nat, line: int, wanted: int) {
    && pos <= |content| && CursorAfter(content, pos).line == line
    && var col := CursorAfter(content, pos).col; col == wanted || (col < wanted && EndOfLine(content, pos))
  }

  lemma JumpInside(content: string, line: int, column: int)
    requires 1 <= line <= |Lines(content)|
    ensures LandsAt(content, JumpTo(content, line, column), line, if column <= 1 then 0 else column - 1)
  {
    var here := |Lines(content)[line - 1]|;
    LinesAreLines(content, line - 1, Clamp(column - 1, here));
  }

  lemma JumpBeyond(content: string, line: int, column: int)
    requires line > |Lines(content)|
    ensures JumpTo(content, line, column) == |content| + 1
  {
    AllLines(content);
    NoMoreLines(Lines(content), line - 1);
  }

  /**
   Where any line and column lead: to that column of that line, or to the line's end if it is shorter; before the first
   line to the start, and after the last line one past the end.
   */
  lemma JumpIsClamped(content: string, line: int, column: int)
    ensures var pos, last := JumpTo(content, line, column), CursorAfter(content, |content|).line;
            && (line < 1 ==> pos == 0)
            && (line > last ==> pos == |content| + 1)
            && (1 <= line <= last ==> LandsAt(content, pos, line, if column <= 1 then 0 else column - 1))
  {
    AllLines(content);
    if line > |Lines(content)| {
      JumpBeyond(content, line, column);
    } else if line >= 1 {
      JumpInside(content, line, column);
    }
  }

  // ------------------------------------------------------------------ diagnostics point at brackets

  ghost predicate PointsAt(text: string, ch: char, at: Cursor) {
    exists j :: 0 <= j < |text| && text[j] == ch && CursorAfter(text, j + 1) == at && ch != '\n'
  }

  lemma {:induction false} ScanPoints(text: string, i: nat)
    requires i <= |text|
    ensures forall o :: o in Scan(text, i).stack ==> PointsAt(text, o.ch, o.at)
    ensures forall d :: d in Scan(text, i).diags ==> PointsAt(text, d.ch, d.at)
  {
    if i > 0 {
      ScanPoints(text, i - 1);
      if IsOpener(text[i - 1]) || IsCloser(text[i - 1]) { assert PointsAt(text, text[i - 1], CursorAfter(text, i)); }
    }
  }

  lemma {:induction false} LeftoversPoint(text: string, stack: seq<Open>)
    requires forall o :: o in stack ==> PointsAt(text, o.ch, o.at)
    ensures forall d :: d in Leftovers(stack) ==> PointsAt(text, d.ch, d.at)
  {
    if stack != [] {
      var before, top := stack[..|stack| - 1], stack[|stack| - 1];
      assert top in stack;
      forall o | o in before ensures o in stack { }
      LeftoversPoint(text, before);
    }
  }

  /** Jumping to any diagnostic lands on the bracket it complains about. */
  lemma DiagnosticsLeadToBrackets(text: string, d: Diagnostic)
    requires d in Lint(text)
    ensures var pos := JumpTo(text, d.at.line, d.at.col); pos < |text| && text[pos] == d.ch
  {
    ScanPoints(text, |text|);
    LeftoversPoint(text, Scan(text, |text|).stack);
    var j :| 0 <= j < |text| && text[j] == d.ch && CursorAfter(text, j + 1) == d.at && d.ch != '\n';
    JumpUndoesScan(text, text, j);
  }

  // ------------------------------------------------------------------ the loops

  method RunBracketCheck(text: string) returns (diags: seq<Diagnostic>)
    ensures diags == Lint(text)
    ensures diags == [] <==> IsBalanced(Brackets(text))
    ensures forall d :: d in diags ==> var pos := JumpTo(text, d.at.line, d.at.col); pos < |text| && text[pos] == d.ch
  {
    diags := [];
    var stack: seq<Open> := [];
    var line, col := 1, 0;
    for i := 0 to |text|
      invariant State(stack, diags) == Scan(text, i)
      invariant Cursor(line, col) == CursorAfter(text, i)
    {
      var ch := text[i];
      if ch == '\n' {
        line, col := line + 1, 0;
        continue;
      }
      col := col + 1;
      if IsOpener(ch) {
        stack := stack + [Open(ch, Cursor(line, col))];
      } else if IsCloser(ch) {
        if stack == [] {
          diags := diags + [Unmatched(ch, Cursor(line, col))];
        } else {
          var top := stack[|stack| - 1];
          stack := stack[..|stack| - 1];
          if CloserOf(top.ch) != ch {
            diags := diags + [Unmatched(ch, Cursor(line, col))];
          }
        }
      }
    }
    while stack != []
      invariant diags + Leftovers(stack) == Lint(text)
      decreases |stack|
    {
      var rem := stack[|stack| - 1];
      stack := stack[..|stack| - 1];
      diags := diags + [Unclosed(rem.ch, rem.at)];
    }
    CleanMeansBalanced(text);
    forall d | d in diags ensures var pos := JumpTo(text, d.at.line, d.at.col); pos < |text| && text[pos] == d.ch {
      DiagnosticsLeadToBrackets(text, d);
    }
  }

  lemma {:induction false} OneMoreLine(lines: seq<string>, n: nat)
    requires n < |lines|
    ensures LengthOf(lines, n + 1) == LengthOf(lines, n) + |lines[n]| + 1
  {
    if n > 0 { OneMoreLine(lines[1..], n - 1); }
  }

  method Jump(content: string, line: int, column: int) returns (pos: nat)
    ensures pos == JumpTo(content, line, column)
  {
    var lines := Lines(content);
    pos := 0;
    var i := 0;
    while i < line - 1 && i < |lines|
      invariant 0 <= i <= |lines| && (i == 0 || i <= line - 1)
      invariant pos == LengthOf(lines, i)
    {
      OneMoreLine(lines, i);
      pos := pos + |lines[i]| + 1;
      i := i + 1;
    }
    if line - 1 > |lines| { NoMoreLines(lines, line - 1); }
    var here := if 1 <= line <= |lines| then lines[line - 1] else "";
    pos := pos + (if column - 1 <= 0 then 0 else if column - 1 > |here| then |here| else column - 1);
  }
}
