/** How the tokens of printed text are read back, whatever follows them. */
module CslLexing {
  import opened Numbers
  import opened Wrappers
  import opened CslSyntax
  import opened CslLayout
  import opened CslParser
  import opened CslPrinter

  /** A token may end before `k`. */
  predicate Boundary(k: string) {
    k != "" ==> !IsIdentChar(k[0]) && k[0] != '.'
  }

  /** Text that starts with no blank, no comment, and nothing that joins an operator before it. */
  predicate Solid(t: string) {
    t != "" && !IsSpace(t[0]) && t[0] != '/' && t[0] != '*' && t[0] != '='
  }

  lemma StopsSkipping(t: string)
    requires t == "" || (!IsSpace(t[0]) && t[0] != '/')
    ensures SkipWs(t) == t
  {
  }

  // ----- Gaps

  lemma {:induction false} LineSkipped(text: string, t: string)
    requires '\n' !in text
    ensures DropLine(text + ("\n" + t)) == "\n" + t
  {
    if text == "" {
      assert "" + ("\n" + t) == "\n" + t;
    } else {
      assert text[0] in text && forall c :: c in text[1..] ==> c in text;
      assert (text + ("\n" + t))[1..] == text[1..] + ("\n" + t);
      LineSkipped(text[1..], t);
    }
  }

  /** A line comment ends at its line break, and takes nothing behind it. */
  lemma SkipsLineComment(text: string, t: string)
    requires '\n' !in text
    ensures SkipWs("//" + text + "\n" + t) == SkipWs(t)
  {
    LineSkipped(text, t);
    var s := "//" + text + "\n" + t;
    assert s[2..] == text + ("\n" + t);
    hide DropLine, AfterClose;
    assert SkipWs(s) == SkipWs("\n" + t);
    assert ("\n" + t)[1..] == t;
  }

  lemma {:induction false} BlockClosed(text: string, t: string)
    requires forall k :: 0 <= k < |text| ==> !("*/" <= (text + "*/")[k..])
    ensures AfterClose(text + ("*/" + t)) == Some(t)
    decreases |text|
  {
    var s := text + ("*/" + t);
    if text == "" {
      assert s == "*/" + t && s[2..] == t;
    } else {
      assert !("*/" <= (text + "*/")[0..]);
      assert !("*/" <= s);
      forall k | 0 <= k < |text[1..]| ensures !("*/" <= (text[1..] + "*/")[k..]) {
        assert (text[1..] + "*/")[k..] == (text + "*/")[k + 1..];
      }
      assert s[1..] == text[1..] + ("*/" + t);
      BlockClosed(text[1..], t);
    }
  }

  /** A block comment ends at its first end mark. */
  lemma SkipsBlockComment(text: string, t: string)
    requires forall k :: 0 <= k < |text| ==> !("*/" <= (text + "*/")[k..])
    ensures SkipWs("/*" + text + "*/" + t) == SkipWs(t)
  {
    BlockClosed(text, t);
    var s := "/*" + text + "*/" + t;
    assert s[2..] == text + ("*/" + t);
    assert s[0] == '/' && s[1] == '*';
    hide DropLine, AfterClose;
  }

  /** Position `k` is the first end mark. */
  predicate FirstMark(s: string, k: nat) {
    k + 2 <= |s| && "*/" <= s[k..] && forall j :: 0 <= j < k ==> !("*/" <= s[j..])
  }

  lemma MarkShifts(s: string, k: nat)
    requires s != "" && !("*/" <= s)
    ensures FirstMark(s, k + 1) <==> FirstMark(s[1..], k)
  {
    assert s[0..] == s;
    if k + 3 <= |s| {
      assert s[1..][k..] == s[k + 1..];
      assert forall j :: 0 <= j < k ==> s[1..][j..] == s[j + 1..];
      assert forall j :: 0 < j <= k ==> s[j..] == s[1..][j - 1..];
    }
  }

  /** A comment is skipped exactly when an end mark follows, and then ends at the first one. */
  lemma {:induction false} ClosesExactly(s: string, k: nat)
    ensures FirstMark(s, k) <==> AfterClose(s).Some? && k + 2 <= |s| && AfterClose(s).value == s[k + 2..]
    decreases |s|
  {
    if s != "" {
      assert s[0..] == s;
      if "*/" <= s {
        NoMarkBehind(s, k);
      } else if k > 0 {
        MarkShifts(s, k - 1);
        ClosesExactly(s[1..], k - 1);
        assert k + 2 <= |s| ==> s[1..][k - 1 + 2..] == s[k + 2..];
      } else {
        NotAtStart(s);
      }
    }
  }

  lemma NoMarkBehind(s: string, k: nat)
    requires "*/" <= s
    ensures FirstMark(s, k) <==> k == 0
    ensures k + 2 <= |s| ==> (s[2..] == s[k + 2..] <==> k == 0)
  {
    assert s[0..] == s;
    if k > 0 && k + 2 <= |s| {
      assert |s[2..]| != |s[k + 2..]|;
    }
  }

  lemma NotAtStart(s: string)
    requires s != "" && !("*/" <= s)
    ensures !FirstMark(s, 0)
    ensures AfterClose(s).Some? && |s| >= 2 ==> AfterClose(s).value != s[2..]
  {
    assert s[0..] == s;
    CloseIsShorter(s[1..]);
  }

  lemma CloseIsShorter(s: string)
    ensures AfterClose(s).Some? ==> |AfterClose(s).value| + 2 <= |s|
  {
  }

  lemma FillerSkipped(f: Filler, t: string)
    requires FillerOk(f)
    ensures SkipWs(FillerText(f) + t) == SkipWs(t)
  {
    match f {
      case Blank(c) => assert ([c] + t)[1..] == t;
      case LineComment(text) => SkipsLineComment(text, t);
      case BlockComment(text) => SkipsBlockComment(text, t);
    }
  }

  /** Between tokens any gap is skipped. */
  lemma {:induction false} GapSkipped(g: Gap, t: string)
    ensures SkipWs(GapText(g) + t) == SkipWs(t)
    decreases |g|
  {
    hide SkipWs, FillerOk, FillerText;
    if g == [] {
      assert GapText(g) + t == t;
    } else {
      assert g[0] in g && forall f :: f in g[1..] ==> f in g;
      GapSkipped(g[1..], t);
      FillerSkipped(g[0], GapText(g[1..]) + t);
      assert GapText(g) + t == FillerText(g[0]) + (GapText(g[1..]) + t);
    }
  }

  lemma SkipsGap(g: Gap, t: string)
    requires Solid(t)
    ensures SkipWs(GapText(g) + t) == t
  {
    GapSkipped(g, t);
    StopsSkipping(t);
  }

  lemma GapFirst(g: Gap)
    requires g != []
    ensures GapText(g) != "" && (IsSpace(GapText(g)[0]) || GapText(g)[0] == '/')
    ensures g[0].Blank? ==> GapText(g)[0] != '/'
  {
    assert g[0] in g;
  }

  /** A token may end before a gap, and before whatever lets it end when the gap is empty. */
  lemma GapEnds(g: Gap, t: string)
    requires g != [] || Boundary(t)
    ensures Boundary(GapText(g) + t)
  {
    if g == [] {
      assert GapText(g) + t == t;
    } else {
      GapFirst(g);
    }
  }

  // ----- Digits

  lemma {:induction false} RunOfDigits(d: string, k: string)
    requires AllDigits(d) && (k != "" ==> !IsDigit(k[0]))
    ensures DigitRun(d + k) == |d|
    ensures (d + k)[..|d|] == d && (d + k)[|d|..] == k
    decreases |d|
  {
    if d == "" {
      assert d + k == k;
    } else {
      assert (d + k)[1..] == d[1..] + k;
      RunOfDigits(d[1..], k);
    }
  }

  lemma IntegerReads(n: nat, k: string)
    requires n <= I64_MAX && Boundary(k)
    ensures ExprLiteral(Decimal(n) + k) == POk(Lit(LInteger(n)), SkipWs(k))
  {
    hide SkipWs, Decimal, DecimalValue, AllDigits, DigitRun;
    DecimalReads(n);
    var s := Decimal(n) + k;
    RunOfDigits(Decimal(n), k);
    FirstIsDigit(Decimal(n), k);
    assert s[0..] == s;
    NoUnit(k);
  }

  lemma FirstIsDigit(d: string, k: string)
    requires d != "" && AllDigits(d)
    ensures IsDigit((d + k)[0]) && !("-" <= d + k)
  {
  }

  lemma NoUnit(k: string)
    requires Boundary(k)
    ensures DurationUnitAt(k) == None && !("." <= k)
  {
  }

  lemma DurationReads(n: nat, unit: DurationUnit, k: string)
    requires n <= I64_MAX && Boundary(k)
    ensures ExprLiteral(Decimal(n) + UnitText(unit) + k) == POk(Lit(LDuration(n, unit)), SkipWs(k))
  {
    hide SkipWs, Decimal, DecimalValue, AllDigits, DigitRun, DurationUnitAt;
    var d := Decimal(n);
    DecimalReads(n);
    var tail := UnitText(unit) + k;
    assert d + UnitText(unit) + k == d + tail;
    assert !IsDigit(tail[0]);
    RunOfDigits(d, tail);
    UnitReads(unit, k);
  }

  lemma StartsLike(p: string, s: string)
    ensures |p| == 1 ==> (p <= s <==> s != "" && s[0] == p[0])
    ensures |p| == 2 ==> (p <= s <==> |s| >= 2 && s[0] == p[0] && s[1] == p[1])
  {
  }

  lemma UnitReads(unit: DurationUnit, k: string)
    requires Boundary(k)
    ensures DurationUnitAt(UnitText(unit) + k) == Some((unit, k))
  {
    var u := UnitText(unit);
    var s := u + k;
    assert s[|u|..] == k;
    assert s[0] == u[0];
    assert |u| == 2 ==> s[1] == u[1];
    assert |u| == 1 && |s| > 1 ==> s[1] == k[0] && !IsIdentChar(s[1]);
    StartsLike("ns", s);
    StartsLike("us", s);
    StartsLike("ms", s);
    StartsLike("mo", s);
    StartsLike("s", s);
    StartsLike("m", s);
    StartsLike("h", s);
    StartsLike("d", s);
    StartsLike("w", s);
    StartsLike("y", s);
    hide IsIdentStart, IsDigit;
  }

  lemma FloatAssembled(s: string, i: nat, n: nat, m: nat)
    requires i == SignLength(s) && i + n + 1 + m <= |s| && n > 0 && m > 0
    requires DigitRun(s[i..]) == n && "." <= s[i + n..] && DigitRun(s[i + n + 1..]) == m
    ensures FloatLiteral(s) == Some((LFloat(s[..i + n + 1 + m]), SkipWs(s[i + n + 1 + m..])))
  {
    hide SkipWs, DigitRun;
  }

  lemma UnsignedParts(a: string, b: string, k: string)
    ensures
      var s := (a + "." + b) + k;
      && s == a + ("." + b + k) && s[0..] == s && s[|a|..] == "." + b + k && s[|a| + 1..] == b + k
      && s[..|a| + 1 + |b|] == a + "." + b && s[|a| + 1 + |b|..] == k
  {
  }

  lemma FloatReads(text: string, k: string)
    requires FloatOk(text) && Boundary(k)
    ensures ExprLiteral(text + k) == POk(Lit(LFloat(text)), SkipWs(k))
  {
    hide SkipWs, DecimalValue, AllDigits, DigitRun, DurationUnitAt, FloatOk, FloatLiteral, IntegerLiteral, StringLiteral,
      WordLiteral;
    var a, b := FloatParts(text);
    UnsignedParts(a, b, k);
    var tail := "." + b + k;
    DotIsNoUnit(tail);
    RunOfDigits(a, tail);
    FirstIsDigit(a, tail);
    RunOfDigits(b, k);
    FloatAssembled(text + k, 0, |a|, |b|);
  }

  lemma DotIsNoUnit(t: string)
    requires t != "" && t[0] == '.'
    ensures DurationUnitAt(t) == None && "." <= t
  {
  }

  lemma FloatParts(text: string) returns (a: string, b: string)
    requires FloatOk(text)
    ensures a != "" && b != "" && AllDigits(a) && AllDigits(b) && text == a + "." + b
  {
    var i :| 0 < i < |text| - 1 && AllDigits(text[..i]) && text[i] == '.' && AllDigits(text[i + 1..]);
    a, b := text[..i], text[i + 1..];
  }

  /** Behind a minus sign, a negative literal is read whole. */
  lemma NegativeReads(lit: Literal, k: string)
    requires NegativeOk(lit) && Boundary(k)
    ensures ExprLiteral(LiteralText(lit) + k) == POk(Lit(lit), SkipWs(k))
  {
    if lit.LInteger? {
      NegativeIntegerReads(lit.n, k);
    } else {
      NegativeFloatReads(lit.text[1..], k);
      assert lit.text == "-" + lit.text[1..];
    }
  }

  lemma NegativeIntegerReads(v: int, k: string)
    requires I64_MIN <= v < 0 && Boundary(k)
    ensures ExprLiteral("-" + Decimal(-v) + k) == POk(Lit(LInteger(v)), SkipWs(k))
  {
    hide SkipWs, Decimal, DecimalValue, AllDigits, DigitRun;
    var s := "-" + Decimal(-v) + k;
    DecimalReads(-v);
    RunOfDigits(Decimal(-v), k);
    assert s[1..] == Decimal(-v) + k;
    NoDigitsAtMinus(s);
    assert s[1 + |Decimal(-v)|..] == k;
    NoUnit(k);
  }

  lemma NoDigitsAtMinus(s: string)
    requires "-" <= s
    ensures DigitRun(s) == 0
  {
  }

  lemma NegativeFloatReads(text: string, k: string)
    requires FloatOk(text) && Boundary(k)
    ensures ExprLiteral("-" + text + k) == POk(Lit(LFloat("-" + text)), SkipWs(k))
  {
    hide FloatOk, FloatLiteral, IntegerLiteral, StringLiteral, WordLiteral, DigitRun;
    NoDigitsAtMinus("-" + text + k);
    SignedFloatReads(text, k);
  }

  lemma SignedParts(a: string, b: string, k: string)
    ensures
      var s := "-" + (a + "." + b) + k;
      && s[1..] == a + ("." + b + k) && s[1 + |a|..] == "." + b + k && s[1 + |a| + 1..] == b + k
      && s[..1 + |a| + 1 + |b|] == "-" + (a + "." + b) && s[1 + |a| + 1 + |b|..] == k
  {
  }

  lemma SignedFloatReads(text: string, k: string)
    requires FloatOk(text) && Boundary(k)
    ensures FloatLiteral("-" + text + k) == Some((LFloat("-" + text), SkipWs(k)))
  {
    hide SkipWs, AllDigits, DigitRun, FloatOk, FloatLiteral;
    var a, b := FloatParts(text);
    SignedParts(a, b, k);
    var s := "-" + text + k;
    DotIsNoUnit("." + b + k);
    RunOfDigits(a, "." + b + k);
    RunOfDigits(b, k);
    FloatAssembled(s, 1, |a|, |b|);
  }

  // ----- Strings and words

  lemma {:induction false} BodyReads(s: string, k: string)
    ensures StringChars(Escape(s) + "\"" + k) == (s, "\"" + k)
    decreases |s|
  {
    if s == "" {
      assert Escape(s) + "\"" + k == "\"" + k;
    } else {
      var more := Escape(s[1..]) + "\"" + k;
      assert Escape(s) + "\"" + k == EscapeChar(s[0]) + more;
      BodyReads(s[1..], k);
      OneCharReads(s[0], more);
      assert s == [s[0]] + s[1..];
    }
  }

  lemma OneCharReads(c: char, more: string)
    ensures StringChars(EscapeChar(c) + more) == ([c] + StringChars(more).0, StringChars(more).1)
  {
    var t := EscapeChar(c) + more;
    assert t[|EscapeChar(c)|..] == more;
  }

  lemma NotNumeric(s: string)
    requires s != "" && !IsDigit(s[0]) && s[0] != '-'
    ensures DurationLiteral(s) == None && FloatLiteral(s) == None && IntegerLiteral(s) == Backtrack
  {
    assert s[0..] == s;
    assert DigitRun(s) == 0;
    assert SignLength(s) == 0;
  }

  lemma StringReads(s: string, k: string)
    ensures ExprLiteral("\"" + Escape(s) + "\"" + k) == POk(Lit(LString(s)), SkipWs(k))
  {
    hide SkipWs, Escape, StringChars, DurationLiteral, FloatLiteral, IntegerLiteral;
    var t := "\"" + Escape(s) + "\"" + k;
    BodyReads(s, k);
    assert t[1..] == Escape(s) + "\"" + k;
    assert ("\"" + k)[1..] == k;
    NotNumeric(t);
  }

  lemma WordReads(lit: Literal, k: string)
    requires lit.LBool? || lit.LNull?
    ensures ExprLiteral(LiteralText(lit) + k) == POk(Lit(lit), SkipWs(k))
  {
    hide SkipWs, DurationLiteral, FloatLiteral, IntegerLiteral;
    var t := LiteralText(lit) + k;
    NotNumeric(t);
    assert t[|LiteralText(lit)|..] == k;
    assert "true" <= t ==> t[0] == 't';
    assert "false" <= t ==> t[0] == 'f';
  }

  lemma LiteralReads(lit: Literal, k: string)
    requires (LiteralOk(lit) || NegativeOk(lit)) && Boundary(k)
    ensures ExprLiteral(LiteralText(lit) + k) == POk(Lit(lit), SkipWs(k))
  {
    hide ExprLiteral, SkipWs, Decimal, Escape, FloatOk;
    if NegativeOk(lit) {
      NegativeReads(lit, k);
    } else {
      match lit {
        case LInteger(n) => IntegerReads(n, k);
        case LFloat(text) => FloatReads(text, k);
        case LString(s) => StringReads(s, k);
        case LDuration(n, unit) => DurationReads(n, unit, k);
        case _ => WordReads(lit, k);
      }
    }
  }

  // ----- Identifiers and paths

  lemma {:induction false} RunOfIdent(d: string, k: string)
    requires AllIdentChars(d) && (k != "" ==> !IsIdentChar(k[0]))
    ensures IdentRun(d + k) == |d|
    ensures (d + k)[..|d|] == d && (d + k)[|d|..] == k
    decreases |d|
  {
    if d == "" {
      assert d + k == k;
    } else {
      assert (d + k)[1..] == d[1..] + k;
      RunOfIdent(d[1..], k);
    }
  }

  lemma TakesIdent(d: string, k: string)
    requires IsIdent(d) && (k != "" ==> !IsIdentChar(k[0]))
    ensures TakeIdent(d + k) == Some((d, k))
  {
    RunOfIdent(d, k);
    assert (d + k)[0] == d[0];
  }

  predicate Idents(segs: seq<string>) {
    forall j :: 0 <= j < |segs| ==> IsIdent(segs[j])
  }

  lemma PathPieces(segs: seq<string>, k: string)
    requires |segs| > 1
    ensures PathText(segs) + k == segs[0] + ("." + (PathText(segs[1..]) + k))
  {
  }

  lemma MoreSegmentsStep(sofar: seq<string>, name: string, tail: string)
    requires IsIdent(name) && (tail != "" ==> !IsIdentChar(tail[0]))
    ensures MoreSegments(sofar, "." + (name + tail)) == MoreSegments(sofar + [name], tail)
  {
    hide IsIdent, IsIdentChar, TakeIdent;
    var s := "." + (name + tail);
    assert s[1..] == name + tail;
    TakesIdent(name, tail);
  }

  lemma MoreSegmentsStop(sofar: seq<string>, k: string)
    requires Boundary(k)
    ensures MoreSegments(sofar, k) == (sofar, k)
  {
    hide TakeIdent, IsIdentChar;
    StartsLike(".", k);
  }

  /** The rest of a path, read from behind its first segment. */
  lemma {:induction false} SegmentsRead(sofar: seq<string>, segs: seq<string>, k: string)
    requires segs != [] && Idents(segs) && Boundary(k)
    ensures MoreSegments(sofar, "." + (PathText(segs) + k)) == (sofar + segs, k)
    decreases |segs|
  {
    hide MoreSegments, IsIdent, IsIdentChar, Boundary;
    if |segs| == 1 {
      BoundaryEnds(k);
      MoreSegmentsStep(sofar, segs[0], k);
      MoreSegmentsStop(sofar + [segs[0]], k);
      assert sofar + segs == sofar + [segs[0]];
    } else {
      hide PathText;
      var tail := "." + (PathText(segs[1..]) + k);
      PathPieces(segs, k);
      DotEnds(tail);
      MoreSegmentsStep(sofar, segs[0], tail);
      SegmentsRead(sofar + [segs[0]], segs[1..], k);
      assert sofar + segs == (sofar + [segs[0]]) + segs[1..];
    }
  }

  lemma BoundaryEnds(k: string)
    requires Boundary(k)
    ensures k != "" ==> !IsIdentChar(k[0])
  {
  }

  lemma DotEnds(tail: string)
    requires tail != "" && tail[0] == '.'
    ensures !IsIdentChar(tail[0])
  {
  }

  lemma PathReads(segs: seq<string>, k: string)
    requires segs != [] && Idents(segs) && Boundary(k)
    ensures PathParser(PathText(segs) + k) == Some((segs, SkipWs(k)))
  {
    hide SkipWs;
    if |segs| == 1 {
      TakesIdent(segs[0], k);
      StartsLike(".", k);
      assert segs == [segs[0]];
    } else {
      var tail := "." + (PathText(segs[1..]) + k);
      PathPieces(segs, k);
      TakesIdent(segs[0], tail);
      SegmentsRead([segs[0]], segs[1..], k);
      assert segs == [segs[0]] + segs[1..];
    }
  }

  /** The path text starts with its first segment, and what follows is no identifier character. */
  lemma PathHead(segs: seq<string>, k: string) returns (tail: string)
    requires segs != [] && Idents(segs) && Boundary(k)
    ensures PathText(segs) + k == segs[0] + tail
    ensures tail != "" ==> !IsIdentChar(tail[0])
    ensures if |segs| == 1 then tail == k else tail != "" && tail[0] == '.'
  {
    if |segs| == 1 {
      tail := k;
    } else {
      tail := "." + (PathText(segs[1..]) + k);
      PathPieces(segs, k);
    }
  }

  /** A word of letters is a prefix of an identifier and what follows exactly when it is a prefix of
    * the identifier. */
  lemma PrefixOfIdent(word: string, d: string, tail: string)
    requires AllIdentChars(word)
    requires tail != "" ==> !IsIdentChar(tail[0])
    ensures word <= d + tail <==> word <= d
  {
    if |word| > |d| {
      assert IsIdentChar(word[|d|]);
      assert tail != "" ==> (d + tail)[|d|] == tail[0];
    }
  }

  lemma PathIsNoLiteral(segs: seq<string>, k: string)
    requires PathOk(segs) && Boundary(k)
    ensures ExprLiteral(PathText(segs) + k) == Backtrack
  {
    hide PathText, DurationLiteral, FloatLiteral, IntegerLiteral;
    var tail := PathHead(segs, k);
    var s := segs[0] + tail;
    assert s[0] == segs[0][0];
    NotNumeric(s);
    PrefixOfIdent("true", segs[0], tail);
    PrefixOfIdent("false", segs[0], tail);
    PrefixOfIdent("null", segs[0], tail);
    assert !("\"" <= s);
  }
}
