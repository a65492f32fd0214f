/** White space, as JavaScript's `String.prototype.trim` and Go's `strings.TrimSpace` see it. */
module Text {
  // White space and line terminators of ECMAScript (sections 12.2 and 12.3 of ECMA-262).
  predicate IsSpace(c: char) {
    var n := c as int;
    0x09 <= n <= 0x0D || n == 0x20 || n == 0xA0 || n == 0x1680 || 0x2000 <= n <= 0x200A ||
    n == 0x2028 || n == 0x2029 || n == 0x202F || n == 0x205F || n == 0x3000 || n == 0xFEFF
  }

  function TrimStart(s: string): string {
    if s != "" && IsSpace(s[0]) then TrimStart(s[1..]) else s
  }

  function TrimEnd(s: string): string {
    if s != "" && IsSpace(s[|s| - 1]) then TrimEnd(s[..|s| - 1]) else s
  }

  function Trim(s: string): string {
    TrimEnd(TrimStart(s))
  }

  predicate Blank(s: string) {
    Trim(s) == ""
  }

  // `s.trim() === ""`, said of the characters.
  lemma {:induction false} BlankIff(s: string)
    ensures Blank(s) <==> forall c :: c in s ==> IsSpace(c)
  {
    if s != "" && IsSpace(s[0]) {
      BlankIff(s[1..]);
      assert s == [s[0]] + s[1..];
    } else if s != "" {
      TrimEndKeepsFirst(s);
      assert s[0] in s;
    }
  }

  lemma {:induction false} TrimEndKeepsFirst(s: string)
    requires s != "" && !IsSpace(s[0])
    ensures TrimEnd(s) != "" && TrimEnd(s)[0] == s[0]
  {
    if IsSpace(s[|s| - 1]) {
      TrimEndKeepsFirst(s[..|s| - 1]);
    }
  }

  // What `trim` leaves of a text: all but the white space in front and at the end.
  predicate IsTrimOf(t: string, s: string, i: int, j: int) {
    0 <= i <= j <= |s| && t == s[i..j] && (forall k :: 0 <= k < i ==> IsSpace(s[k])) &&
    (forall k :: j <= k < |s| ==> IsSpace(s[k])) && (i < j ==> !IsSpace(s[i]) && !IsSpace(s[j - 1]))
  }

  lemma {:induction false} TrimStartAt(s: string) returns (i: int)
    ensures 0 <= i <= |s| && TrimStart(s) == s[i..] && (forall k :: 0 <= k < i ==> IsSpace(s[k]))
    ensures i < |s| ==> !IsSpace(s[i])
  {
    i := 0;
    if s != "" && IsSpace(s[0]) {
      var n := TrimStartAt(s[1..]);
      i := n + 1;
      assert s[1..][n..] == s[i..];
    }
  }

  lemma {:induction false} TrimEndAt(s: string) returns (j: int)
    ensures 0 <= j <= |s| && TrimEnd(s) == s[..j] && (forall k :: j <= k < |s| ==> IsSpace(s[k]))
    ensures j > 0 ==> !IsSpace(s[j - 1])
  {
    j := |s|;
    if s != "" && IsSpace(s[|s| - 1]) {
      j := TrimEndAt(s[..|s| - 1]);
      assert s[..|s| - 1][..j] == s[..j];
    }
  }

  lemma TrimCutsWhiteSpace(s: string) returns (i: int, j: int)
    ensures IsTrimOf(Trim(s), s, i, j)
  {
    i := TrimStartAt(s);
    var n := TrimEndAt(s[i..]);
    j := i + n;
    assert s[i..][..n] == s[i..j];
    forall k | j <= k < |s| ensures IsSpace(s[k]) {
      assert s[k] == s[i..][k - i];
    }
    if i < j {
      assert s[j - 1] == s[i..][n - 1];
    }
  }

  lemma TrimIsTheOnlyOne(s: string, t: string, i: int, j: int)
    requires IsTrimOf(t, s, i, j)
    ensures t == Trim(s)
  {
    var i', j' := TrimCutsWhiteSpace(s);
    if i < j && i' < j' {
      assert i == i' && j == j';
    }
  }

  // Go's `unicode.IsSpace`
  predicate IsGoSpace(c: char) {
    var n := c as int;
    0x09 <= n <= 0x0D || n == 0x20 || n == 0x85 || n == 0xA0 || n == 0x1680 || 0x2000 <= n <= 0x200A ||
    n == 0x2028 || n == 0x2029 || n == 0x202F || n == 0x205F || n == 0x3000
  }

  function GoTrimStart(s: string): string {
    if s != "" && IsGoSpace(s[0]) then GoTrimStart(s[1..]) else s
  }

  function GoTrimEnd(s: string): string {
    if s != "" && IsGoSpace(s[|s| - 1]) then GoTrimEnd(s[..|s| - 1]) else s
  }

  // `strings.TrimSpace(s)`
  function GoTrim(s: string): string {
    GoTrimEnd(GoTrimStart(s))
  }

  lemma {:induction false} GoTrimEndKeepsFirst(s: string)
    requires s != "" && !IsGoSpace(s[0])
    ensures GoTrimEnd(s) != "" && GoTrimEnd(s)[0] == s[0]
  {
    if IsGoSpace(s[|s| - 1]) {
      GoTrimEndKeepsFirst(s[..|s| - 1]);
    }
  }

  lemma {:induction false} GoTrimEndStops(s: string)
    ensures GoTrimEnd(GoTrimEnd(s)) == GoTrimEnd(s)
  {
    if s != "" && IsGoSpace(s[|s| - 1]) {
      GoTrimEndStops(s[..|s| - 1]);
    }
  }

  lemma {:induction false} GoTrimStartStops(s: string)
    ensures GoTrimStart(s) == "" || !IsGoSpace(GoTrimStart(s)[0])
  {
    if s != "" && IsGoSpace(s[0]) {
      GoTrimStartStops(s[1..]);
    }
  }

  // Trimming what has been trimmed changes nothing.
  lemma GoTrimIsIdempotent(s: string)
    ensures GoTrim(GoTrim(s)) == GoTrim(s)
  {
    GoTrimStartStops(s);
    GoTrimEndStops(GoTrimStart(s));
    if GoTrimStart(s) != "" {
      GoTrimEndKeepsFirst(GoTrimStart(s));
    }
  }

  // The two notions of white space differ on two characters only.
  lemma SpacesDifferIff(c: char)
    ensures IsSpace(c) != IsGoSpace(c) <==> c as int in {0x85, 0xFEFF}
  {
  }

  // `strings.TrimSpace(s) == ""`
  predicate GoBlank(s: string) {
    forall c :: c in s ==> IsGoSpace(c)
  }

  lemma {:induction false} GoTrimIsEmptyIff(s: string)
    ensures GoTrim(s) == "" <==> GoBlank(s)
  {
    if s != "" && IsGoSpace(s[0]) {
      GoTrimIsEmptyIff(s[1..]);
      assert s == [s[0]] + s[1..];
    } else if s != "" {
      GoTrimEndKeepsFirst(s);
      assert s[0] in s;
    }
  }

  // What `TrimSpace` leaves of a text: all but the white space in front and at the end.
  predicate IsGoTrimOf(t: string, s: string, i: int, j: int) {
    0 <= i <= j <= |s| && t == s[i..j] && (forall k :: 0 <= k < i ==> IsGoSpace(s[k])) &&
    (forall k :: j <= k < |s| ==> IsGoSpace(s[k])) && (i < j ==> !IsGoSpace(s[i]) && !IsGoSpace(s[j - 1]))
  }

  lemma {:induction false} GoTrimStartAt(s: string) returns (i: int)
    ensures 0 <= i <= |s| && GoTrimStart(s) == s[i..] && (forall k :: 0 <= k < i ==> IsGoSpace(s[k]))
    ensures i < |s| ==> !IsGoSpace(s[i])
  {
    i := 0;
    if s != "" && IsGoSpace(s[0]) {
      var n := GoTrimStartAt(s[1..]);
      i := n + 1;
      assert s[1..][n..] == s[i..];
    }
  }

  lemma {:induction false} GoTrimEndAt(s: string) returns (j: int)
    ensures 0 <= j <= |s| && GoTrimEnd(s) == s[..j] && (forall k :: j <= k < |s| ==> IsGoSpace(s[k]))
    ensures j > 0 ==> !IsGoSpace(s[j - 1])
  {
    j := |s|;
    if s != "" && IsGoSpace(s[|s| - 1]) {
      j := GoTrimEndAt(s[..|s| - 1]);
      assert s[..|s| - 1][..j] == s[..j];
    }
  }

  lemma GoTrimCutsWhiteSpace(s: string) returns (i: int, j: int)
    ensures IsGoTrimOf(GoTrim(s), s, i, j)
  {
    i := GoTrimStartAt(s);
    var n := GoTrimEndAt(s[i..]);
    j := i + n;
    assert s[i..][..n] == s[i..j];
    forall k | j <= k < |s| ensures IsGoSpace(s[k]) {
      assert s[k] == s[i..][k - i];
    }
    if i < j {
      assert s[j - 1] == s[i..][n - 1];
    }
  }

  // ---------------------------------------------------------------- Go's string order

  predicate Before(a: string, b: string) {
    if b == "" then false
    else if a == "" then true
    else if a[0] != b[0] then a[0] < b[0]
    else Before(a[1..], b[1..])
  }

  // `k` is where `a` ends and `b` goes on, or the first place they differ in, and `b` has the
  // greater character there.
  predicate ComesFirstAt(a: string, b: string, k: int) {
    0 <= k <= |a| && k < |b| && a[..k] == b[..k] && (k == |a| || a[k] < b[k])
  }

  lemma {:induction false} BeforeIff(a: string, b: string)
    ensures Before(a, b) <==> exists k :: ComesFirstAt(a, b, k)
  {
    if a != "" && b != "" {
      BeforeIff(a[1..], b[1..]);
      if Before(a, b) && a[0] == b[0] {
        var k :| ComesFirstAt(a[1..], b[1..], k);
        assert a[..k + 1] == [a[0]] + a[1..][..k] && b[..k + 1] == [b[0]] + b[1..][..k];
        assert ComesFirstAt(a, b, k + 1);
      } else if Before(a, b) {
        assert ComesFirstAt(a, b, 0);
      }
      if exists k :: ComesFirstAt(a, b, k) {
        var k :| ComesFirstAt(a, b, k);
        if k > 0 {
          assert a[..k][0] == b[..k][0];
          assert a[1..][..k - 1] == a[..k][1..] && b[1..][..k - 1] == b[..k][1..];
          assert ComesFirstAt(a[1..], b[1..], k - 1);
        }
      }
    } else if b != "" {
      assert ComesFirstAt(a, b, 0);
    }
  }

  lemma {:induction false} BeforeIsTotal(a: string, b: string)
    ensures Before(a, b) || a == b || Before(b, a)
    ensures !(Before(a, b) && Before(b, a)) && !Before(a, a)
  {
    if a != "" {
      BeforeIsTotal(a[1..], a[1..]);
    }
    if a != "" && b != "" {
      BeforeIsTotal(a[1..], b[1..]);
      assert a == [a[0]] + a[1..] && b == [b[0]] + b[1..];
    }
  }

  lemma {:induction false} BeforeIsTransitive(a: string, b: string, c: string)
    requires Before(a, b) && Before(b, c)
    ensures Before(a, c)
  {
    if a != "" && b != "" && c != "" && a[0] == b[0] == c[0] {
      BeforeIsTransitive(a[1..], b[1..], c[1..]);
    }
  }
}
