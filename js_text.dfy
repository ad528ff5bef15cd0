/**
  JavaScript strings as sequences of UTF-16 code units, with the few string
  operations the widget's stream decoder and RTL detector use: `trim`,
  `split('\n')`, `startsWith`, and the `\s` class of regular expressions.

  The functions keep small contracts; what they mean is stated by the lemmas
  beside them (`LeadingSpaceSpec`, `TrimShape`, `TrimIs`, `SplitLinesShape`,
  `SplitJoinLines`), which the proofs call where they need them.
 */
module JsText {

  /** One UTF-16 code unit. `length`, indexing and `substring` count these. */
  newtype CodeUnit = c: int | 0 <= c < 0x1_0000

  type JsString = seq<CodeUnit>

  const LineFeed: CodeUnit := 0x0A

  /**
    The code units that `String.prototype.trim` removes and that `\s` matches:
    the WhiteSpace and LineTerminator productions of ECMA-262 (sections 12.2
    and 12.3), with the space separators of Unicode category Zs.
   */
  predicate IsWhiteSpace(c: CodeUnit) {
    || c == 0x09 || c == 0x0A || c == 0x0B || c == 0x0C || c == 0x0D
    || c == 0x20 || c == 0xA0 || c == 0x1680
    || (0x2000 <= c <= 0x200A)
    || c == 0x2028 || c == 0x2029 || c == 0x202F || c == 0x205F
    || c == 0x3000 || c == 0xFEFF
  }

  predicate AllWhiteSpace(s: JsString) {
    forall i | 0 <= i < |s| :: IsWhiteSpace(s[i])
  }

  /** Every unit of `s` at an index in [lo, hi) is white space. */
  predicate SpaceBetween(s: JsString, lo: int, hi: int)
    requires 0 <= lo && hi <= |s|
  {
    forall k | lo <= k < hi :: IsWhiteSpace(s[k])
  }

  /** A string literal of ASCII characters, as code units. */
  function Ascii(s: string): (r: JsString)
    requires forall i | 0 <= i < |s| :: s[i] as int < 0x80
    ensures |r| == |s| && forall i | 0 <= i < |s| :: r[i] as int == s[i] as int
  {
    seq(|s|, i requires 0 <= i < |s| => s[i] as int as CodeUnit)
  }

  /** `s.startsWith(prefix)` */
  predicate StartsWith(s: JsString, prefix: JsString) {
    |prefix| <= |s| && s[..|prefix|] == prefix
  }

  // ---------------------------------------------------------------------
  // trim
  // ---------------------------------------------------------------------

  /** The number of white-space units `s` starts with. */
  function LeadingSpace(s: JsString): (n: nat)
    ensures n <= |s|
  {
    if s != [] && IsWhiteSpace(s[0]) then 1 + LeadingSpace(s[1..]) else 0
  }

  lemma {:induction false} LeadingSpaceSpec(s: JsString)
    ensures var n := LeadingSpace(s);
      SpaceBetween(s, 0, n) && (n < |s| ==> !IsWhiteSpace(s[n]))
  {
    if s != [] && IsWhiteSpace(s[0]) {
      LeadingSpaceSpec(s[1..]);
    }
  }

  /** The length of `s` without the white-space units it ends with. */
  function ContentEnd(s: JsString): (n: nat)
    ensures n <= |s|
  {
    if s != [] && IsWhiteSpace(s[|s| - 1]) then ContentEnd(s[..|s| - 1]) else |s|
  }

  lemma {:induction false} ContentEndSpec(s: JsString)
    ensures var n := ContentEnd(s);
      SpaceBetween(s, n, |s|) && (n > 0 ==> !IsWhiteSpace(s[n - 1]))
  {
    if s != [] && IsWhiteSpace(s[|s| - 1]) {
      ContentEndSpec(s[..|s| - 1]);
    }
  }

  /** A string is trimmed when it neither starts nor ends with white space. */
  predicate IsTrimmed(s: JsString) {
    s == [] || (!IsWhiteSpace(s[0]) && !IsWhiteSpace(s[|s| - 1]))
  }

  /**
    `s.trim()`: the units from the first to the last one that is not white
    space, or nothing when there is none.
   */
  function Trim(s: JsString): (r: JsString)
    ensures |r| <= |s| && IsTrimmed(r)
  {
    var i := LeadingSpace(s);
    if i == |s| then []
    else
      var j := ContentEnd(s);
      LeadingSpaceSpec(s);
      ContentEndSpec(s);
      assert i < j by { assert !IsWhiteSpace(s[i]); }
      s[i..j]
  }

  /**
    `trim` returns an infix of `s` with only white space around it, and the
    empty string exactly when `s` is all white space.
   */
  lemma TrimShape(s: JsString)
    ensures var i := LeadingSpace(s); var r := Trim(s);
      && i + |r| <= |s| && r == s[i..i + |r|]
      && SpaceBetween(s, 0, i) && SpaceBetween(s, i + |r|, |s|)
      && (r == [] <==> AllWhiteSpace(s))
  {
    LeadingSpaceSpec(s);
    ContentEndSpec(s);
  }

  /**
    `trim` is characterised by its result: a trimmed infix of `s` with only
    white space around it.
   */
  lemma TrimIs(s: JsString, i: nat, r: JsString)
    requires i + |r| <= |s| && s[i..i + |r|] == r && IsTrimmed(r)
    requires SpaceBetween(s, 0, i) && SpaceBetween(s, i + |r|, |s|)
    ensures Trim(s) == r
  {
    LeadingSpaceSpec(s);
    ContentEndSpec(s);
    if r != [] {
      assert s[i] == r[0] && s[i + |r| - 1] == r[|r| - 1];
      assert LeadingSpace(s) == i;
      assert ContentEnd(s) == i + |r|;
    } else {
      assert LeadingSpace(s) == |s|;
    }
  }

  /** `trim` leaves a trimmed string unchanged, so trimming twice is trimming once. */
  lemma TrimmedIsFixed(s: JsString)
    requires IsTrimmed(s)
    ensures Trim(s) == s
  {
    TrimIs(s, 0, s);
  }

  /** `trim` adds no code unit, so it adds no line feed. */
  lemma NoLineFeedInTrim(s: JsString)
    requires LineFeed !in s
    ensures LineFeed !in Trim(s)
  {
    TrimShape(s);
    var i := LeadingSpace(s);
    var r := Trim(s);
    forall k | 0 <= k < |r| ensures r[k] != LineFeed {
      assert r[k] == s[i + k];
    }
  }

  /** White space in front of a string does not change its trim. */
  lemma TrimAfterSpace(w: JsString, s: JsString)
    requires AllWhiteSpace(w)
    ensures Trim(w + s) == Trim(s)
  {
    TrimShape(s);
    var r := Trim(s);
    var j := LeadingSpace(s);
    var ws := w + s;
    assert ws[|w| + j..|w| + j + |r|] == s[j..j + |r|];
    assert SpaceBetween(ws, 0, |w| + j) by {
      forall k | 0 <= k < |w| + j ensures IsWhiteSpace(ws[k]) {
        if k < |w| { assert ws[k] == w[k]; } else { assert ws[k] == s[k - |w|]; }
      }
    }
    assert SpaceBetween(ws, |w| + j + |r|, |ws|) by {
      forall k | |w| + j + |r| <= k < |ws| ensures IsWhiteSpace(ws[k]) {
        assert ws[k] == s[k - |w|];
      }
    }
    TrimIs(ws, |w| + j, r);
  }

  /**
    Trimming a carried piece before appending to it changes nothing when the
    piece is all white space or ends with a unit that is not white space.
   */
  lemma TrimCarried(t: JsString, c: JsString)
    requires AllWhiteSpace(t) || !IsWhiteSpace(t[|t| - 1])
    ensures Trim(Trim(t) + c) == Trim(t + c)
  {
    TrimShape(t);
    var e := Trim(t);
    if AllWhiteSpace(t) {
      assert e + c == c;
      TrimAfterSpace(t, c);
    } else {
      var i := LeadingSpace(t);
      assert i + |e| == |t|;
      assert t + c == t[..i] + (e + c);
      TrimAfterSpace(t[..i], e + c);
    }
  }

  /**
    The other case: a carried piece that has content and ends in white space
    loses that white space, which `trim` keeps inside the whole line once `c`
    brings more content.
   */
  lemma TrimCarriedLosesInnerSpace(t: JsString, c: JsString)
    requires !AllWhiteSpace(t) && IsWhiteSpace(t[|t| - 1])
    requires !AllWhiteSpace(c)
    ensures |Trim(Trim(t) + c)| < |Trim(t + c)|
  {
    TrimShape(t);
    var e := Trim(t);
    var i := LeadingSpace(t);
    assert |e| < |t| - i;
    TrimStartingWithContent(e, c);
    assert t + c == t[..i] + (t[i..] + c);
    TrimAfterSpace(t[..i], t[i..] + c);
    TrimStartingWithContent(t[i..], c);
  }

  /** A string that starts with content keeps its start, and ends where the content of `c` ends. */
  lemma TrimStartingWithContent(u: JsString, c: JsString)
    requires u != [] && !IsWhiteSpace(u[0]) && !AllWhiteSpace(c)
    ensures |Trim(u + c)| == |u| + ContentEnd(c)
  {
    ContentEndSpec(c);
    var m := ContentEnd(c);
    assert 0 < m;
    var r := u + c[..m];
    var s := u + c;
    assert r == s[0..|u| + m] by {
      assert s == u + c[..m] + c[m..];
    }
    assert IsTrimmed(r) by {
      assert r[0] == u[0] && r[|r| - 1] == c[m - 1];
    }
    assert SpaceBetween(s, |u| + m, |s|) by {
      forall k | |u| + m <= k < |s| ensures IsWhiteSpace(s[k]) {
        assert s[k] == c[k - |u|];
      }
    }
    TrimIs(s, 0, r);
  }

  // ---------------------------------------------------------------------
  // split('\n')
  // ---------------------------------------------------------------------

  /** The number of line feeds in `s`. */
  function LineFeedCount(s: JsString): nat {
    if s == [] then 0 else (if s[0] == LineFeed then 1 else 0) + LineFeedCount(s[1..])
  }

  /** Joins pieces with '\n' between them: `pieces.join('\n')`. */
  function JoinLines(pieces: seq<JsString>): JsString
    requires |pieces| >= 1
  {
    if |pieces| == 1 then pieces[0] else pieces[0] + [LineFeed] + JoinLines(pieces[1..])
  }

  /** `s.split('\n')`: the pieces between line feeds, at least one. */
  function SplitLines(s: JsString): (pieces: seq<JsString>)
    ensures |pieces| >= 1
  {
    if s == [] then [[]]
    else
      var rest := SplitLines(s[1..]);
      if s[0] == LineFeed then [[]] + rest
      else [[s[0]] + rest[0]] + rest[1..]
  }

  /**
    One piece more than `s` has line feeds, no piece holds a line feed, and
    joining the pieces with '\n' gives `s` back.
   */
  lemma SplitLinesShape(s: JsString)
    ensures var pieces := SplitLines(s);
      && |pieces| == 1 + LineFeedCount(s)
      && (forall p <- pieces :: LineFeed !in p)
      && JoinLines(pieces) == s
  {
    SplitLinesCount(s);
    SplitLinesPieces(s);
    SplitLinesJoin(s);
  }

  lemma {:induction false} SplitLinesCount(s: JsString)
    ensures |SplitLines(s)| == 1 + LineFeedCount(s)
  {
    if s != [] {
      SplitLinesCount(s[1..]);
    }
  }

  lemma {:induction false} SplitLinesPieces(s: JsString)
    ensures forall p <- SplitLines(s) :: LineFeed !in p
  {
    if s != [] {
      var rest := SplitLines(s[1..]);
      SplitLinesPieces(s[1..]);
      if s[0] != LineFeed {
        var r := SplitLines(s);
        assert r[0] == [s[0]] + rest[0];
        assert LineFeed !in rest[0] by { assert rest[0] in rest; }
        forall i | 1 <= i < |r| ensures LineFeed !in r[i] {
          assert r[i] == rest[i] && rest[i] in rest;
        }
        assert forall p <- r :: LineFeed !in p by {
          forall p <- r ensures LineFeed !in p {
            var i :| 0 <= i < |r| && r[i] == p;
          }
        }
      }
    }
  }

  lemma {:induction false} SplitLinesJoin(s: JsString)
    ensures JoinLines(SplitLines(s)) == s
  {
    if s != [] {
      var rest := SplitLines(s[1..]);
      SplitLinesJoin(s[1..]);
      assert s == [s[0]] + s[1..];
      if s[0] == LineFeed {
        assert ([[]] + rest)[1..] == rest;
      } else {
        var r := [[s[0]] + rest[0]] + rest[1..];
        if |rest| > 1 {
          assert r[1..] == rest[1..];
          assert JoinLines(rest) == rest[0] + [LineFeed] + JoinLines(rest[1..]);
        }
      }
    }
  }

  /** The text after the last line feed of `s`: the line still unfinished. */
  function Unterminated(s: JsString): JsString {
    var pieces := SplitLines(s);
    pieces[|pieces| - 1]
  }

  lemma UnterminatedNoLineFeed(s: JsString)
    ensures LineFeed !in Unterminated(s)
  {
    SplitLinesShape(s);
    var p := SplitLines(s);
    assert p[|p| - 1] in p;
  }

  lemma {:induction false} SplitLinesOfPiece(a: JsString, b: JsString)
    requires LineFeed !in a
    ensures SplitLines(a + b) == [a + SplitLines(b)[0]] + SplitLines(b)[1..]
  {
    if a == [] {
      var sb := SplitLines(b);
      assert a + b == b && a + sb[0] == sb[0];
      assert [sb[0]] + sb[1..] == sb;
    } else {
      assert (a + b)[1..] == a[1..] + b;
      assert (a + b)[0] == a[0] && a[0] in a;
      assert LineFeed !in a[1..] by {
        assert forall k | 0 <= k < |a[1..]| :: a[1..][k] == a[k + 1];
      }
      SplitLinesOfPiece(a[1..], b);
      assert [a[0]] + (a[1..] + SplitLines(b)[0]) == a + SplitLines(b)[0];
    }
  }

  /** `split` undoes `join` when no piece holds a line feed. */
  lemma {:induction false} SplitJoinLines(pieces: seq<JsString>)
    requires |pieces| >= 1
    requires forall p <- pieces :: LineFeed !in p
    ensures SplitLines(JoinLines(pieces)) == pieces
  {
    if |pieces| == 1 {
      SplitLinesOfPiece(pieces[0], []);
      assert pieces[0] + [] == pieces[0];
    } else {
      var rest := JoinLines(pieces[1..]);
      SplitJoinLines(pieces[1..]);
      assert ([LineFeed] + rest)[1..] == rest;
      assert SplitLines([LineFeed] + rest) == [[]] + pieces[1..];
      assert pieces[0] + [LineFeed] + rest == pieces[0] + ([LineFeed] + rest);
      SplitLinesOfPiece(pieces[0], [LineFeed] + rest);
      assert pieces[0] + [] == pieces[0];
      assert ([[]] + pieces[1..])[1..] == pieces[1..];
      assert pieces == [pieces[0]] + pieces[1..];
    }
  }

  /** A line ended by '\n' is the first piece; the rest is split on its own. */
  lemma SplitLinesCons(line: JsString, rest: JsString)
    requires LineFeed !in line
    ensures SplitLines(line + [LineFeed] + rest) == [line] + SplitLines(rest)
  {
    assert line + [LineFeed] + rest == line + ([LineFeed] + rest);
    SplitLinesOfPiece(line, [LineFeed] + rest);
    assert ([LineFeed] + rest)[1..] == rest;
    assert SplitLines([LineFeed] + rest) == [[]] + SplitLines(rest);
    assert line + [] == line;
    assert ([[]] + SplitLines(rest))[1..] == SplitLines(rest);
  }

  lemma {:induction false} JoinLinesAppend(x: seq<JsString>, y: seq<JsString>)
    requires |x| >= 1 && |y| >= 1
    ensures JoinLines(x + y) == JoinLines(x) + [LineFeed] + JoinLines(y)
  {
    if |x| > 1 {
      assert (x + y)[1..] == x[1..] + y;
      JoinLinesAppend(x[1..], y);
    } else {
      assert (x + y)[1..] == y;
    }
  }

  /** Replacing the last piece by a split of that piece continued by `b` joins to the old text and `b`. */
  lemma {:induction false} JoinReplaceLast(pa: seq<JsString>, pt: seq<JsString>, b: JsString)
    requires |pa| >= 1 && |pt| >= 1 && JoinLines(pt) == pa[|pa| - 1] + b
    ensures JoinLines(pa[..|pa| - 1] + pt) == JoinLines(pa) + b
  {
    var n := |pa|;
    var z := pa[..n - 1] + pt;
    if n == 1 {
      assert z == pt;
    } else {
      var tail := pa[1..];
      assert z[0] == pa[0];
      assert z[1..] == tail[..|tail| - 1] + pt;
      JoinReplaceLast(tail, pt, b);
      var x := JoinLines(tail);
      assert pa[0] + [LineFeed] + (x + b) == (pa[0] + [LineFeed] + x) + b;
    }
  }

  lemma PiecesReplaceLast(pa: seq<JsString>, pt: seq<JsString>)
    requires |pa| >= 1
    requires forall p <- pa :: LineFeed !in p
    requires forall p <- pt :: LineFeed !in p
    ensures forall p <- pa[..|pa| - 1] + pt :: LineFeed !in p
  {
    var z := pa[..|pa| - 1] + pt;
    forall p <- z ensures LineFeed !in p {
      assert p in pa[..|pa| - 1] || p in pt;
    }
  }

  /**
    Splitting a concatenation: the finished lines of `a`, then the split of the
    unfinished line of `a` continued by `b`.
   */
  lemma SplitLinesAppend(a: JsString, b: JsString)
    ensures var pa := SplitLines(a);
      SplitLines(a + b) == pa[..|pa| - 1] + SplitLines(Unterminated(a) + b)
  {
    var pa := SplitLines(a);
    var pt := SplitLines(Unterminated(a) + b);
    SplitLinesShape(a);
    SplitLinesShape(Unterminated(a) + b);
    JoinReplaceLast(pa, pt, b);
    PiecesReplaceLast(pa, pt);
    SplitJoinLines(pa[..|pa| - 1] + pt);
  }

  lemma {:induction false} UnterminatedAppend(a: JsString, b: JsString)
    ensures Unterminated(a + b) == Unterminated(Unterminated(a) + b)
  {
    SplitLinesAppend(a, b);
  }

  lemma {:induction false} LineFeedCountZero(s: JsString)
    requires LineFeed !in s
    ensures LineFeedCount(s) == 0
  {
    if s != [] {
      assert s[0] in s;
      assert LineFeed !in s[1..] by {
        assert forall k | 0 <= k < |s[1..]| :: s[1..][k] == s[k + 1];
      }
      LineFeedCountZero(s[1..]);
    }
  }

  lemma {:induction false} LineFeedCountAppend(a: JsString, b: JsString)
    ensures LineFeedCount(a + b) == LineFeedCount(a) + LineFeedCount(b)
  {
    if a != [] {
      assert (a + b)[0] == a[0] && (a + b)[1..] == a[1..] + b;
      LineFeedCountAppend(a[1..], b);
    } else {
      assert a + b == b;
    }
  }

  /** A string without line feeds is a single piece. */
  lemma SplitLinesNoLineFeed(s: JsString)
    requires LineFeed !in s
    ensures SplitLines(s) == [s]
  {
    SplitLinesShape(s);
    LineFeedCountZero(s);
  }
}
