/**
  The interpolation scanner (internal/workflow/parser.go): finds the bodies of "${...}" in a
  string, counting braces, and goes on just behind the "$" when an opening is never closed.
  A character stands for a byte; the scanner only looks at '$', '{' and '}'.
 */
module Interpolation {
  predicate Opens(s: string, i: nat) {
    i + 1 < |s| && s[i] == '$' && s[i + 1] == '{'
  }

  function Weight(c: char): int {
    if c == '{' then 1 else if c == '}' then -1 else 0
  }

  // Where the brace count, `depth` at `end`, comes down to zero; or the end of the string.
  function Scan(s: string, end: nat, depth: nat): (nat, nat)
    requires end <= |s|
    decreases |s| - end
  {
    if end < |s| && depth > 0 then Scan(s, end + 1, depth + Weight(s[end])) else (end, depth)
  }

  function VarsFrom(s: string, i: nat): seq<string>
    requires i <= |s|
    decreases |s| - i
  {
    if i + 2 >= |s| then []
    else if Opens(s, i) then
      var (end, depth) := Scan(s, i + 2, 1);
      ScanBounds(s, i + 2, 1);
      if depth == 0 then [s[i + 2..end - 1]] + VarsFrom(s, end) else VarsFrom(s, i + 1)
    else VarsFrom(s, i + 1)
  }

  lemma {:induction false} ScanBounds(s: string, end: nat, depth: nat)
    requires end <= |s|
    ensures end <= Scan(s, end, depth).0 <= |s|
    ensures depth > 0 && Scan(s, end, depth).1 == 0 ==> end < Scan(s, end, depth).0
    ensures Scan(s, end, depth).1 > 0 ==> Scan(s, end, depth).0 == |s|
    decreases |s| - end
  {
    if end < |s| && depth > 0 {
      ScanBounds(s, end + 1, depth + Weight(s[end]));
    }
  }

  method ContainsInterpolation(s: string) returns (found: bool)
    ensures found <==> exists i: nat :: i + 2 < |s| && Opens(s, i)
  {
    for i := 0 to |s| - (if |s| < 2 then |s| else 2)
      invariant forall j: nat :: j < i ==> !Opens(s, j)
    {
      if s[i] == '$' && s[i + 1] == '{' {
        assert Opens(s, i);
        return true;
      }
    }
    return false;
  }

  method InterpolationVars(s: string) returns (vars: seq<string>)
    ensures vars == VarsFrom(s, 0)
  {
    vars := [];
    var i: nat := 0;
    while i < |s| - 2
      invariant i <= |s|
      invariant vars + VarsFrom(s, i) == VarsFrom(s, 0)
      decreases |s| - i
    {
      if s[i] == '$' && s[i + 1] == '{' {
        var end: nat := i + 2;
        var depth: nat := 1;
        while end < |s| && depth > 0
          invariant i + 2 <= end <= |s|
          invariant Scan(s, end, depth) == Scan(s, i + 2, 1)
          invariant depth == 0 ==> i + 2 < end
        {
          if s[end] == '{' {
            depth := depth + 1;
          } else if s[end] == '}' {
            depth := depth - 1;
          }
          end := end + 1;
        }
        if depth == 0 {
          var varName := s[i + 2..end - 1];
          assert vars + VarsFrom(s, i) == vars + [varName] + VarsFrom(s, end);
          vars := vars + [varName];
          i := end;
        } else {
          i := i + 1;
        }
      } else {
        i := i + 1;
      }
    }
  }

  // ---------------------------------------------------------------- balance, independently

  // The braces opened minus those closed in s[i..j].
  function Net(s: string, i: nat, j: nat): int
    requires i <= j <= |s|
    decreases j - i
  {
    if i == j then 0 else Weight(s[i]) + Net(s, i + 1, j)
  }

  // Never more closed than opened from the left, and as many closed as opened in all.
  // The openings in a stretch of text, less the closings in it.
  lemma {:induction false} NetCountsBraces(s: string, i: nat, j: nat)
    requires i <= j <= |s|
    ensures Net(s, i, j) + multiset(s[i..j])['}'] == multiset(s[i..j])['{']
    decreases j - i
  {
    if i == j {
      assert s[i..j] == [];
    } else {
      NetCountsBraces(s, i + 1, j);
      assert s[i..j] == [s[i]] + s[i + 1..j];
    }
  }

  ghost predicate Balanced(body: string) {
    Net(body, 0, |body|) == 0 && forall k: nat :: k <= |body| ==> Net(body, 0, k) >= 0
  }

  // Position `end` closes what is open at `from`: the first place where the count is back.
  ghost predicate Closes(s: string, from: nat, end: nat) {
    from < end <= |s| && 1 + Net(s, from, end) == 0 && forall k: nat :: from <= k < end ==> 1 + Net(s, from, k) > 0
  }

  lemma {:induction false} NetSnoc(s: string, i: nat, j: nat)
    requires i <= j < |s|
    ensures Net(s, i, j + 1) == Net(s, i, j) + Weight(s[j])
    decreases j - i
  {
    if i < j {
      NetSnoc(s, i + 1, j);
    }
  }

  lemma {:induction false} NetSlice(s: string, t: string, from: nat, i: nat, j: nat)
    requires i <= j <= |t| && from + |t| <= |s| && s[from..from + |t|] == t
    ensures Net(t, i, j) == Net(s, from + i, from + j)
    decreases j - i
  {
    if i < j {
      assert t[i] == s[from..from + |t|][i] == s[from + i];
      NetSlice(s, t, from, i + 1, j);
    }
  }

  lemma {:induction false} ScanMeaning(s: string, end: nat, depth: nat)
    requires end <= |s| && depth > 0
    ensures var (e, d) := Scan(s, end, depth);
      end <= e <= |s| &&
      (forall k: nat :: end <= k < e ==> depth + Net(s, end, k) > 0) &&
      (d == 0 ==> end < e && depth + Net(s, end, e) == 0) &&
      (d > 0 ==> e == |s| && depth + Net(s, end, e) > 0)
    decreases |s| - end
  {
    ScanBounds(s, end, depth);
    if end < |s| {
      var next := depth + Weight(s[end]);
      if next > 0 {
        ScanMeaning(s, end + 1, next);
        forall k: nat | end <= k < Scan(s, end, depth).0 ensures depth + Net(s, end, k) > 0 {
          if k > end {
            assert Net(s, end, k) == Weight(s[end]) + Net(s, end + 1, k);
          }
        }
        assert Net(s, end, Scan(s, end, depth).0) == Weight(s[end]) + Net(s, end + 1, Scan(s, end, depth).0);
      } else {
        assert Net(s, end, end + 1) == Weight(s[end]) + Net(s, end + 1, end + 1);
      }
    }
  }

  // The scan reports a close exactly where there is one, and there is at most one.
  lemma ScanFindsTheClose(s: string, from: nat, end: nat)
    requires from <= |s|
    ensures Closes(s, from, end) <==> Scan(s, from, 1) == (end, 0)
  {
    ScanMeaning(s, from, 1);
  }

  lemma ClosedBodyIsBalanced(s: string, from: nat, end: nat)
    requires Closes(s, from, end)
    ensures s[end - 1] == '}' && Balanced(s[from..end - 1])
  {
    var body := s[from..end - 1];
    NetSnoc(s, from, end - 1);
    forall k: nat | k <= |body| ensures Net(body, 0, k) >= 0 {
      NetSlice(s, body, from, 0, k);
    }
    NetSlice(s, body, from, 0, |body|);
  }

  lemma BalancedBodyCloses(s: string, from: nat, body: string)
    requires from + |body| < |s| && s[from..from + |body|] == body && s[from + |body|] == '}' && Balanced(body)
    ensures Closes(s, from, from + |body| + 1)
  {
    forall k: nat | from <= k < from + |body| + 1 ensures 1 + Net(s, from, k) > 0 {
      NetSlice(s, body, from, 0, k - from);
    }
    NetSlice(s, body, from, 0, |body|);
    NetSnoc(s, from, from + |body|);
  }

  // ---------------------------------------------------------------- templates

  datatype Piece = Piece(literal: string, body: string)

  datatype Template = Template(pieces: seq<Piece>, tail: string)

  function Print(t: Template): string
    decreases |t.pieces|
  {
    if t.pieces == [] then t.tail
    else t.pieces[0].literal + "${" + t.pieces[0].body + "}" + Print(t.(pieces := t.pieces[1..]))
  }

  function Bodies(pieces: seq<Piece>): seq<string> {
    if pieces == [] then [] else [pieces[0].body] + Bodies(pieces[1..])
  }

  ghost predicate NoOpening(literal: string) {
    forall i: nat :: !Opens(literal, i)
  }

  ghost predicate Printable(t: Template) {
    NoOpening(t.tail) && forall p :: p in t.pieces ==> NoOpening(p.literal) && Balanced(p.body)
  }

  lemma {:induction false} SkipTo(s: string, i: nat, n: nat)
    requires i <= n <= |s|
    requires forall j: nat :: i <= j < n ==> !Opens(s, j)
    ensures VarsFrom(s, i) == VarsFrom(s, n)
    decreases n - i
  {
    if i < n {
      SkipTo(s, i + 1, n);
    }
  }

  // The scanner works on a suffix as it works on the rest of the whole string.
  lemma {:induction false} ScanShift(u: string, n: nat, s: string, end: nat, depth: nat)
    requires n + |s| == |u| && u[n..] == s && end <= |s|
    ensures Scan(u, n + end, depth) == (n + Scan(s, end, depth).0, Scan(s, end, depth).1)
    decreases |s| - end
  {
    if end < |s| && depth > 0 {
      assert u[n + end] == s[end];
      ScanShift(u, n, s, end + 1, depth + Weight(s[end]));
    }
  }

  lemma SameOpenings(u: string, n: nat, s: string, i: nat)
    requires n + |s| == |u| && u[n..] == s
    ensures Opens(u, n + i) <==> Opens(s, i)
  {
    if i + 1 < |s| {
      assert u[n + i] == s[i] && u[n + i + 1] == s[i + 1];
    }
  }

  lemma ClosedIsReported(s: string, i: nat, end: nat)
    requires i + 2 < |s| && Opens(s, i) && Scan(s, i + 2, 1) == (end, 0)
    ensures i + 2 <= end - 1 < |s| && VarsFrom(s, i) == [s[i + 2..end - 1]] + VarsFrom(s, end)
  {
    ScanBounds(s, i + 2, 1);
  }

  lemma UnclosedIsSkipped(s: string, i: nat)
    requires i + 2 < |s| && !(Opens(s, i) && Scan(s, i + 2, 1).1 == 0)
    ensures VarsFrom(s, i) == VarsFrom(s, i + 1)
  {
  }

  lemma SameSlice(u: string, n: nat, s: string, i: nat, j: nat)
    requires n + |s| == |u| && u[n..] == s && i <= j <= |s|
    ensures u[n + i..n + j] == s[i..j]
  {
    forall k | 0 <= k < j - i ensures u[n + i..n + j][k] == s[i..j][k] {
      assert u[n..][i + k] == s[i + k];
    }
  }

  lemma {:induction false} VarsShift(u: string, n: nat, s: string, i: nat)
    requires n + |s| == |u| && u[n..] == s && i <= |s|
    ensures VarsFrom(u, n + i) == VarsFrom(s, i)
    decreases |s| - i
  {
    if i + 2 < |s| {
      SameOpenings(u, n, s, i);
      ScanShift(u, n, s, i + 2, 1);
      var (end, depth) := Scan(s, i + 2, 1);
      if Opens(s, i) && depth == 0 {
        ClosedIsReported(s, i, end);
        ClosedIsReported(u, n + i, n + end);
        SameSlice(u, n, s, i + 2, end - 1);
        VarsShift(u, n, s, end);
      } else {
        UnclosedIsSkipped(s, i);
        UnclosedIsSkipped(u, n + i);
        VarsShift(u, n, s, i + 1);
      }
    }
  }

  // A variable behind a literal without openings is found, and the scan goes on behind it.
  lemma FirstVariable(s: string, n: nat, body: string)
    requires n + 2 + |body| < |s| && Opens(s, n) && s[n + 2..n + 2 + |body|] == body && s[n + 2 + |body|] == '}'
    requires Balanced(body) && forall j: nat :: j < n ==> !Opens(s, j)
    ensures VarsFrom(s, 0) == [body] + VarsFrom(s, n + |body| + 3)
  {
    SkipTo(s, 0, n);
    VariableAt(s, n, body);
  }

  lemma VariableAt(s: string, n: nat, body: string)
    requires n + 2 + |body| < |s| && Opens(s, n) && s[n + 2..n + 2 + |body|] == body && s[n + 2 + |body|] == '}'
    requires Balanced(body)
    ensures VarsFrom(s, n) == [body] + VarsFrom(s, n + |body| + 3)
  {
    var end := n + |body| + 3;
    BalancedBodyCloses(s, n + 2, body);
    ScanFindsTheClose(s, n + 2, end);
    ClosedIsReported(s, n, end);
  }

  lemma LiteralStaysClosed(s: string, literal: string)
    requires NoOpening(literal) && literal <= s && |literal| < |s| && s[|literal|] != '{'
    ensures forall j: nat :: j < |literal| ==> !Opens(s, j)
  {
    forall j: nat | j < |literal| ensures !Opens(s, j) {
      assert !Opens(literal, j);
      assert s[j] == literal[j];
      if j + 1 < |literal| {
        assert s[j + 1] == literal[j + 1];
      }
    }
  }

  lemma PrintedPiece(literal: string, body: string, rest: string)
    ensures var s, n := literal + "${" + body + "}" + rest, |literal|;
      |s| == n + |body| + 3 + |rest| && literal <= s && s[n] == '$' && s[n + 1] == '{' && s[n + 2 + |body|] == '}' &&
      s[n + 2..n + 2 + |body|] == body && s[n + |body| + 3..] == rest
  {
  }

  // The scanner inverts the printer: literals without an opening and balanced bodies, nested
  // braces and all, come back as the bodies in order.
  lemma {:induction false} ScannerInvertsPrinter(t: Template)
    requires Printable(t)
    ensures VarsFrom(Print(t), 0) == Bodies(t.pieces)
    decreases |t.pieces|
  {
    if t.pieces == [] {
      SkipTo(t.tail, 0, |t.tail|);
    } else {
      var p, rest := t.pieces[0], t.(pieces := t.pieces[1..]);
      assert p in t.pieces;
      var s, n := Print(t), |p.literal|;
      var after := n + |p.body| + 3;
      PrintedPiece(p.literal, p.body, Print(rest));
      LiteralStaysClosed(s, p.literal);
      FirstVariable(s, n, p.body);
      VarsShift(s, after, Print(rest), 0);
      ScannerInvertsPrinter(rest);
    }
  }

  // ---------------------------------------------------------------- any string

  // The string cut at what the scanner reports; `from` is where the current literal began.
  function SplitFrom(s: string, from: nat, i: nat): Template
    requires from <= i <= |s|
    decreases |s| - i
  {
    if i + 2 >= |s| then Template([], s[from..])
    else if Opens(s, i) then
      var (end, depth) := Scan(s, i + 2, 1);
      ScanBounds(s, i + 2, 1);
      if depth == 0 then
        var rest := SplitFrom(s, end, end);
        rest.(pieces := [Piece(s[from..i], s[i + 2..end - 1])] + rest.pieces)
      else SplitFrom(s, from, i + 1)
    else SplitFrom(s, from, i + 1)
  }

  lemma PrintMore(p: Piece, rest: Template)
    ensures var t := rest.(pieces := [p] + rest.pieces);
      Print(t) == p.literal + "${" + p.body + "}" + Print(rest) && Bodies(t.pieces) == [p.body] + Bodies(rest.pieces)
  {
    var t := rest.(pieces := [p] + rest.pieces);
    assert t.pieces[1..] == rest.pieces && t.(pieces := t.pieces[1..]) == rest;
  }

  lemma SplitAtClosed(s: string, from: nat, i: nat, end: nat)
    requires from <= i && i + 2 < |s| && Opens(s, i) && Scan(s, i + 2, 1) == (end, 0)
    ensures i + 2 <= end - 1 < |s|
    ensures var rest := SplitFrom(s, end, end);
      SplitFrom(s, from, i) == rest.(pieces := [Piece(s[from..i], s[i + 2..end - 1])] + rest.pieces)
  {
    ScanBounds(s, i + 2, 1);
  }

  // The pieces of `t` put together are what there is from `from` on, and their bodies are balanced.
  ghost predicate Rebuilds(t: Template, s: string, from: nat)
    requires from <= |s|
  {
    Print(t) == s[from..] && forall p :: p in t.pieces ==> Balanced(p.body)
  }

  lemma PieceInFront(s: string, from: nat, i: nat, end: nat, rest: Template)
    requires from <= i && i + 2 <= end - 1 < |s| && s[i] == '$' && s[i + 1] == '{' && s[end - 1] == '}'
    requires Rebuilds(rest, s, end) && Balanced(s[i + 2..end - 1])
    ensures Rebuilds(rest.(pieces := [Piece(s[from..i], s[i + 2..end - 1])] + rest.pieces), s, from)
  {
    PrintMore(Piece(s[from..i], s[i + 2..end - 1]), rest);
    assert s[from..] == s[from..i] + "${" + s[i + 2..end - 1] + "}" + s[end..];
  }

  // On any string the results are disjoint, in order, and balanced: putting literals between
  // them gives back the very string that was scanned.
  lemma {:induction false} ScannerLosesNothing(s: string, from: nat, i: nat)
    requires from <= i <= |s|
    ensures Rebuilds(SplitFrom(s, from, i), s, from)
    decreases |s| - i
  {
    if i + 2 < |s| {
      var (end, depth) := Scan(s, i + 2, 1);
      if Opens(s, i) && depth == 0 {
        SplitAtClosed(s, from, i, end);
        ScannerLosesNothing(s, end, end);
        ScanFindsTheClose(s, i + 2, end);
        ClosedBodyIsBalanced(s, i + 2, end);
        PieceInFront(s, from, i, end, SplitFrom(s, end, end));
      } else {
        ScannerLosesNothing(s, from, i + 1);
      }
    }
  }

  // And those results are what the scanner reports.
  lemma {:induction false} SplitIsReported(s: string, from: nat, i: nat)
    requires from <= i <= |s|
    ensures Bodies(SplitFrom(s, from, i).pieces) == VarsFrom(s, i)
    decreases |s| - i
  {
    if i + 2 < |s| {
      var (end, depth) := Scan(s, i + 2, 1);
      if Opens(s, i) && depth == 0 {
        SplitAtClosed(s, from, i, end);
        ClosedIsReported(s, i, end);
        SplitIsReported(s, end, end);
        PrintMore(Piece(s[from..i], s[i + 2..end - 1]), SplitFrom(s, end, end));
      } else {
        SplitIsReported(s, from, i + 1);
        UnclosedIsSkipped(s, i);
      }
    }
  }

  ghost predicate IsClosed(s: string, from: nat) {
    exists end :: Closes(s, from, end)
  }

  ghost predicate Terminated(s: string, i: nat) {
    Opens(s, i) && IsClosed(s, i + 2)
  }

  // It also misses nothing: the scanner reports something if and only if some opening in the
  // string is closed. Then ContainsInterpolation says yes; it may say yes without that.
  lemma {:induction false} ReportsIffTerminated(s: string, i: nat)
    requires i <= |s|
    ensures VarsFrom(s, i) != [] <==> exists j: nat :: i <= j && Terminated(s, j)
    decreases |s| - i
  {
    if i + 2 >= |s| {
      assert forall j: nat :: i <= j ==> !Terminated(s, j);
    } else {
      ScanBounds(s, i + 2, 1);
      var (end, depth) := Scan(s, i + 2, 1);
      if Opens(s, i) && depth == 0 {
        ScanFindsTheClose(s, i + 2, end);
        assert Terminated(s, i);
      } else {
        ReportsIffTerminated(s, i + 1);
        if Terminated(s, i) {
          var e :| Closes(s, i + 2, e);
          ScanFindsTheClose(s, i + 2, e);
        }
      }
    }
  }

  lemma ReportedMeansContained(s: string)
    requires VarsFrom(s, 0) != []
    ensures exists i: nat :: i + 2 < |s| && Opens(s, i)
  {
    ReportsIffTerminated(s, 0);
    var i: nat :| Terminated(s, i);
    var end :| Closes(s, i + 2, end);
  }

  // ---------------------------------------------------------------- the only way to read a string

  // No position of a literal begins a variable.
  ghost predicate LiteralsHoldNone(s: string, t: Template, from: nat)
    decreases |t.pieces|
  {
    if t.pieces == [] then forall j: nat :: from <= j ==> !Terminated(s, j)
    else
      var p, rest := t.pieces[0], t.(pieces := t.pieces[1..]);
      (forall j: nat :: from <= j < from + |p.literal| ==> !Terminated(s, j)) &&
      LiteralsHoldNone(s, rest, from + |p.literal| + |p.body| + 3)
  }

  lemma NotTerminated(s: string, i: nat)
    requires !(i + 2 < |s| && Opens(s, i) && Scan(s, i + 2, 1).1 == 0)
    ensures !Terminated(s, i)
  {
    if Terminated(s, i) {
      var end :| Closes(s, i + 2, end);
      ScanFindsTheClose(s, i + 2, end);
    }
  }

  lemma {:induction false} SplitHoldsNone(s: string, from: nat, i: nat)
    requires from <= i <= |s| && forall j: nat :: from <= j < i ==> !Terminated(s, j)
    ensures LiteralsHoldNone(s, SplitFrom(s, from, i), from)
    decreases |s| - i
  {
    if i + 2 >= |s| {
      forall j: nat | from <= j ensures !Terminated(s, j) {
        if j >= i { NotTerminated(s, j); }
      }
    } else {
      var (end, depth) := Scan(s, i + 2, 1);
      if Opens(s, i) && depth == 0 {
        SplitAtClosed(s, from, i, end);
        SplitHoldsNone(s, end, end);
        var t, rest := SplitFrom(s, from, i), SplitFrom(s, end, end);
        assert t.(pieces := t.pieces[1..]) == rest;
      } else {
        NotTerminated(s, i);
        SplitHoldsNone(s, from, i + 1);
      }
    }
  }

  lemma {:induction false} SplitSkipsTo(s: string, from: nat, i: nat, n: nat)
    requires from <= i <= n <= |s| && forall j: nat :: i <= j < n ==> !Terminated(s, j)
    ensures SplitFrom(s, from, i) == SplitFrom(s, from, n)
    decreases n - i
  {
    if i < n {
      SplitSkipsTo(s, from, i + 1, n);
      SplitSkips(s, from, i);
    }
  }

  lemma SplitSkips(s: string, from: nat, i: nat)
    requires from <= i < |s| && !Terminated(s, i)
    ensures SplitFrom(s, from, i) == SplitFrom(s, from, i + 1)
  {
    if i + 2 < |s| && Opens(s, i) && Scan(s, i + 2, 1).1 == 0 {
      ClosedIsTerminated(s, i);
    }
  }

  lemma ClosedIsTerminated(s: string, i: nat)
    requires i + 2 < |s| && Opens(s, i) && Scan(s, i + 2, 1).1 == 0
    ensures Terminated(s, i)
  {
    ScanFindsTheClose(s, i + 2, Scan(s, i + 2, 1).0);
  }

  lemma FirstPieceIsFound(s: string, from: nat, n: nat, body: string)
    requires from <= n && n + 2 + |body| < |s| && forall j: nat :: from <= j < n ==> !Terminated(s, j)
    requires Opens(s, n) && s[n + 2..n + 2 + |body|] == body && s[n + 2 + |body|] == '}' && Balanced(body)
    ensures var rest := SplitFrom(s, n + |body| + 3, n + |body| + 3);
      SplitFrom(s, from, from) == rest.(pieces := [Piece(s[from..n], body)] + rest.pieces)
  {
    SplitSkipsTo(s, from, from, n);
    BalancedBodyCloses(s, n + 2, body);
    ScanFindsTheClose(s, n + 2, n + |body| + 3);
    SplitAtClosed(s, from, n, n + |body| + 3);
  }

  // There is one way to cut a string into literals that hold no variable and balanced bodies, and
  // the scanner finds it. (A literal may have openings, as long as nothing closes them.)
  lemma {:induction false} SplitIsTheOnlyOne(s: string, t: Template, from: nat)
    requires from <= |s| && Rebuilds(t, s, from) && LiteralsHoldNone(s, t, from)
    ensures SplitFrom(s, from, from) == t
    decreases |t.pieces|
  {
    if t.pieces == [] {
      SplitSkipsTo(s, from, from, |s|);
    } else {
      var end := from + |t.pieces[0].literal| + |t.pieces[0].body| + 3;
      PieceAt(s, t, from);
      FirstHoldsNone(s, t, from);
      SplitIsTheOnlyOne(s, Rest(t), end);
      SplitFirst(s, t, from, from + |t.pieces[0].literal|, end);
    }
  }

  function Rest(t: Template): Template
    requires t.pieces != []
  {
    t.(pieces := t.pieces[1..])
  }

  lemma FirstHoldsNone(s: string, t: Template, from: nat)
    requires t.pieces != [] && LiteralsHoldNone(s, t, from)
    ensures forall j: nat :: from <= j < from + |t.pieces[0].literal| ==> !Terminated(s, j)
    ensures LiteralsHoldNone(s, Rest(t), from + |t.pieces[0].literal| + |t.pieces[0].body| + 3)
  {
  }

  lemma SplitFirst(s: string, t: Template, from: nat, n: nat, end: nat)
    requires t.pieces != [] && from <= n && n + |t.pieces[0].body| + 3 == end <= |s|
    requires forall j: nat :: from <= j < n ==> !Terminated(s, j)
    requires Opens(s, n) && s[from..n] == t.pieces[0].literal
    requires s[n + 2..end - 1] == t.pieces[0].body && s[end - 1] == '}'
    requires Balanced(t.pieces[0].body) && SplitFrom(s, end, end) == Rest(t)
    ensures SplitFrom(s, from, from) == t
  {
    FirstPieceIsFound(s, from, n, t.pieces[0].body);
    assert [t.pieces[0]] + t.pieces[1..] == t.pieces;
  }

  lemma PieceAt(s: string, t: Template, from: nat)
    requires from <= |s| && Rebuilds(t, s, from) && t.pieces != []
    ensures var p, n := t.pieces[0], from + |t.pieces[0].literal|;
      var end := n + |p.body| + 3;
      end <= |s| && s[from..n] == p.literal && Opens(s, n) && s[n + 2..end - 1] == p.body && s[end - 1] == '}' &&
      Balanced(p.body) && Rebuilds(Rest(t), s, end)
  {
    var p, rest := t.pieces[0], t.(pieces := t.pieces[1..]);
    assert p in t.pieces;
    var u, n := s[from..], |p.literal|;
    PrintedPiece(p.literal, p.body, Print(rest));
    assert s[from..from + n] == u[..n] && s[from + n] == u[n] && s[from + n + 1] == u[n + 1];
    assert s[from + n + 2..from + n + 2 + |p.body|] == u[n + 2..n + 2 + |p.body|];
    assert s[from + n + |p.body| + 2] == u[n + |p.body| + 2];
    assert s[from + n + |p.body| + 3..] == u[n + |p.body| + 3..];
  }

  // What the scanner reports of any string are the bodies of the one reading it has.
  lemma ReportsTheOnlyReading(s: string, t: Template)
    requires Print(t) == s && (forall p :: p in t.pieces ==> Balanced(p.body)) && LiteralsHoldNone(s, t, 0)
    ensures VarsFrom(s, 0) == Bodies(t.pieces)
  {
    assert s[0..] == s;
    SplitIsTheOnlyOne(s, t, 0);
    SplitIsReported(s, 0, 0);
  }
}
