/** Which brackets the check reports, told by how deep the text is nested, without the stack. */
module BracketReports {
  import opened BracketLint

  /** How deep the text is nested after i characters, whatever the kinds; a closer at the bottom stays there. */
  function Depth(text: string, i: nat): nat
    requires i <= |text|
  {
    if i == 0 then 0
    else
      var d := Depth(text, i - 1);
      if IsOpener(text[i - 1]) then d + 1 else if IsCloser(text[i - 1]) && d > 0 then d - 1 else d
  }

  /** The opener at k is still open after i characters: the nesting has stayed above it. */
  predicate OpenAt(text: string, k: nat, i: nat) {
    k < i <= |text| && IsOpener(text[k]) && forall m :: k < m <= i ==> Depth(text, m) > Depth(text, k)
  }

  /** The closer at j takes the opener at k. */
  predicate Takes(text: string, j: nat, k: nat) {
    j < |text| && IsCloser(text[j]) && OpenAt(text, k, j) && Depth(text, j) == Depth(text, k) + 1
  }

  /** A closer that takes no opener of its kind. */
  ghost predicate Mismatched(text: string, j: nat) {
    j < |text| && IsCloser(text[j]) && forall k: nat :: Takes(text, j, k) ==> CloserOf(text[k]) != text[j]
  }

  ghost predicate Increasing(ks: seq<nat>) {
    forall i, j :: 0 <= i < j < |ks| ==> ks[i] < ks[j]
  }

  predicate InText(text: string, ks: seq<nat>) {
    forall n :: 0 <= n < |ks| ==> ks[n] < |text|
  }

  /** The open positions after i characters, each one level above the one before. */
  ghost predicate Positions(text: string, i: nat, ks: seq<nat>)
    requires i <= |text|
  {
    && |ks| == Depth(text, i) && Increasing(ks) && InText(text, ks)
    && forall n :: 0 <= n < |ks| ==> OpenAt(text, ks[n], i) && Depth(text, ks[n]) == n
  }

  lemma LaterIsDeeper(text: string, k: nat, later: nat, i: nat)
    requires OpenAt(text, k, i) && OpenAt(text, later, i) && k < later
    ensures Depth(text, k) < Depth(text, later)
  {
  }

  /** No two open positions are equally deep, so the list is complete. */
  lemma PositionsComplete(text: string, i: nat, ks: seq<nat>, k: nat)
    requires i <= |text| && Positions(text, i, ks) && OpenAt(text, k, i)
    ensures Depth(text, k) < |ks| && ks[Depth(text, k)] == k
  {
    assert Depth(text, i) > Depth(text, k);
    var other := ks[Depth(text, k)];
    assert OpenAt(text, other, i) && Depth(text, other) == Depth(text, k);
    if other < k { LaterIsDeeper(text, other, k, i); } else if k < other { LaterIsDeeper(text, k, other, i); }
  }

  lemma PositionsAfter(text: string, i: nat, ks: seq<nat>)
    requires 0 < i <= |text| && Positions(text, i - 1, ks)
    ensures IsOpener(text[i - 1]) ==> Positions(text, i, ks + [i - 1])
    ensures IsCloser(text[i - 1]) ==> Positions(text, i, if ks == [] then [] else ks[..|ks| - 1])
    ensures !IsOpener(text[i - 1]) && !IsCloser(text[i - 1]) ==> Positions(text, i, ks)
  {
    forall n | 0 <= n < |ks| && (IsCloser(text[i - 1]) ==> n < |ks| - 1) ensures OpenAt(text, ks[n], i) {
      assert OpenAt(text, ks[n], i - 1);
    }
  }

  function Opens(text: string, ks: seq<nat>): (r: seq<Open>)
    requires InText(text, ks)
    ensures |r| == |ks|
  {
    seq(|ks|, n requires 0 <= n < |ks| => Open(text[ks[n]], CursorAfter(text, ks[n] + 1)))
  }

  /** The stack holds exactly the open positions, deepest last. */
  ghost predicate StackIs(text: string, i: nat, ks: seq<nat>)
    requires i <= |text|
  {
    Positions(text, i, ks) && Scan(text, i).stack == Opens(text, ks)
  }

  function Mismatches(text: string, js: seq<nat>): (r: seq<Diagnostic>)
    requires InText(text, js)
    ensures |r| == |js|
  {
    seq(|js|, n requires 0 <= n < |js| => Unmatched(text[js[n]], CursorAfter(text, js[n] + 1)))
  }

  /** The reports made by the scan are exactly the mismatched closers so far, in order. */
  ghost predicate ReportsAre(text: string, i: nat, js: seq<nat>)
    requires i <= |text|
  {
    && Increasing(js) && InText(text, js)
    && (forall j: nat :: j in js <==> j < i && Mismatched(text, j))
    && Scan(text, i).diags == Mismatches(text, js)
  }

  /** The closer at j finds on top of the stack the opener that it takes, if there is one. */
  lemma TopIsTaken(text: string, j: nat, ks: seq<nat>)
    requires j < |text| && IsCloser(text[j]) && StackIs(text, j, ks)
    ensures Mismatched(text, j) <==> ks == [] || CloserOf(text[ks[|ks| - 1]]) != text[j]
  {
    if ks != [] { assert Takes(text, j, ks[|ks| - 1]); }
    forall k | Takes(text, j, k) ensures ks != [] && k == ks[|ks| - 1] { PositionsComplete(text, j, ks, k); }
  }

  lemma StackAfterOpener(text: string, i: nat, ks: seq<nat>)
    requires 0 < i <= |text| && StackIs(text, i - 1, ks) && IsOpener(text[i - 1])
    ensures StackIs(text, i, ks + [i - 1])
  {
    PositionsAfter(text, i, ks);
    assert Opens(text, ks + [i - 1]) == Opens(text, ks) + [Open(text[i - 1], CursorAfter(text, i))];
  }

  lemma StackAfterCloser(text: string, i: nat, ks: seq<nat>)
    requires 0 < i <= |text| && StackIs(text, i - 1, ks) && IsCloser(text[i - 1])
    ensures StackIs(text, i, if ks == [] then [] else ks[..|ks| - 1])
  {
    PositionsAfter(text, i, ks);
    if ks != [] { assert Opens(text, ks[..|ks| - 1]) == Opens(text, ks)[..|ks| - 1]; }
  }

  lemma StackAfter(text: string, i: nat, ks: seq<nat>) returns (ks': seq<nat>)
    requires 0 < i <= |text| && StackIs(text, i - 1, ks)
    ensures StackIs(text, i, ks')
  {
    if IsOpener(text[i - 1]) {
      StackAfterOpener(text, i, ks);
      ks' := ks + [i - 1];
    } else if IsCloser(text[i - 1]) {
      StackAfterCloser(text, i, ks);
      ks' := if ks == [] then [] else ks[..|ks| - 1];
    } else {
      PositionsAfter(text, i, ks);
      ks' := ks;
    }
  }

  lemma IncreasingAppend(js: seq<nat>, j: nat)
    requires Increasing(js) && forall n :: 0 <= n < |js| ==> js[n] < j
    ensures Increasing(js + [j])
  {
  }

  lemma OneMoreReport(text: string, i: nat, js: seq<nat>)
    requires 0 < i <= |text| && ReportsAre(text, i - 1, js) && Mismatched(text, i - 1)
    requires Scan(text, i).diags == Scan(text, i - 1).diags + [Unmatched(text[i - 1], CursorAfter(text, i))]
    ensures ReportsAre(text, i, js + [i - 1])
  {
    assert forall n :: 0 <= n < |js| ==> js[n] in js;
    IncreasingAppend(js, i - 1);
    assert Mismatches(text, js + [i - 1]) == Mismatches(text, js) + [Unmatched(text[i - 1], CursorAfter(text, i))];
  }

  lemma NoMoreReport(text: string, i: nat, js: seq<nat>)
    requires 0 < i <= |text| && ReportsAre(text, i - 1, js) && !Mismatched(text, i - 1)
    requires Scan(text, i).diags == Scan(text, i - 1).diags
    ensures ReportsAre(text, i, js)
  {
  }

  lemma ReportsAfter(text: string, i: nat, ks: seq<nat>, js: seq<nat>) returns (js': seq<nat>)
    requires 0 < i <= |text| && StackIs(text, i - 1, ks) && ReportsAre(text, i - 1, js)
    ensures ReportsAre(text, i, js')
  {
    if IsCloser(text[i - 1]) { TopIsTaken(text, i - 1, ks); }
    if Mismatched(text, i - 1) {
      js' := js + [i - 1];
      OneMoreReport(text, i, js);
    } else {
      js' := js;
      NoMoreReport(text, i, js);
    }
  }

  lemma {:induction false} ScanIsExact(text: string, i: nat) returns (ks: seq<nat>, js: seq<nat>)
    requires i <= |text|
    ensures StackIs(text, i, ks) && ReportsAre(text, i, js)
  {
    if i == 0 {
      ks, js := [], [];
      assert Opens(text, []) == [] && Mismatches(text, []) == [];
    } else {
      var ks0, js0 := ScanIsExact(text, i - 1);
      ks := StackAfter(text, i, ks0);
      js := ReportsAfter(text, i, ks0, js0);
    }
  }

  lemma {:induction false} LeftoversAt(stack: seq<Open>)
    ensures |Leftovers(stack)| == |stack|
    ensures forall n :: 0 <= n < |stack| ==>
              Leftovers(stack)[n] == Unclosed(stack[|stack| - 1 - n].ch, stack[|stack| - 1 - n].at)
  {
    if stack != [] { LeftoversAt(stack[..|stack| - 1]); }
  }

  /** The list of all reports: the mismatched closers, and the open openers from the last one back. */
  ghost predicate Reports(text: string, diags: seq<Diagnostic>, js: seq<nat>, ks: seq<nat>)
    requires InText(text, js) && InText(text, ks)
  {
    && |diags| == |js| + |ks|
    && (forall n :: 0 <= n < |js| ==> diags[n] == Unmatched(text[js[n]], CursorAfter(text, js[n] + 1)))
    && (forall n :: 0 <= n < |ks| ==>
          diags[|js| + |ks| - 1 - n] == Unclosed(text[ks[n]], CursorAfter(text, ks[n] + 1)))
  }

  lemma ReportsJoin(text: string, stack: seq<Open>, first: seq<Diagnostic>, second: seq<Diagnostic>,
                    js: seq<nat>, ks: seq<nat>)
    requires InText(text, js) && InText(text, ks) && first == Mismatches(text, js) && stack == Opens(text, ks)
    requires |second| == |stack|
    requires forall n :: 0 <= n < |stack| ==>
               second[n] == Unclosed(stack[|stack| - 1 - n].ch, stack[|stack| - 1 - n].at)
    ensures Reports(text, first + second, js, ks)
  {
    var all := first + second;
    forall n | 0 <= n < |ks|
      ensures all[|js| + |ks| - 1 - n] == Unclosed(text[ks[n]], CursorAfter(text, ks[n] + 1))
    {
      assert all[|js| + |ks| - 1 - n] == second[|ks| - 1 - n];
    }
  }

  lemma LintReports(text: string, js: seq<nat>, ks: seq<nat>)
    requires StackIs(text, |text|, ks) && ReportsAre(text, |text|, js)
    ensures Reports(text, Lint(text), js, ks)
  {
    var s := Scan(text, |text|);
    LeftoversAt(s.stack);
    ReportsJoin(text, s.stack, s.diags, Leftovers(s.stack), js, ks);
  }

  /**
   What is reported, in full: first every closer that takes no opener of its kind, in the order of the text, then every
   opener that is never closed, innermost first; each once and with its own position.
   */
  lemma DiagnosticsExactly(text: string) returns (js: seq<nat>, ks: seq<nat>)
    ensures InText(text, js) && Increasing(js) && forall j: nat :: j in js <==> Mismatched(text, j)
    ensures InText(text, ks) && Increasing(ks) && forall k: nat :: k in ks <==> OpenAt(text, k, |text|)
    ensures Reports(text, Lint(text), js, ks)
  {
    ks, js := ScanIsExact(text, |text|);
    LintReports(text, js, ks);
    forall k: nat | OpenAt(text, k, |text|) ensures k in ks { PositionsComplete(text, |text|, ks, k); }
  }
}
