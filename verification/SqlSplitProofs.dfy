/** The splitter is stable: a statement it returned splits into itself. And where every top-level
  * dollar marker is a word, the counter counts the splitter's statements. */
module SqlSplitProofs {
  import opened Text
  import opened Wrappers
  import opened SqlSplit

  /** Scanned from this mode, the text is collected as it stands, in one statement. */
  predicate Stable(u: string, mode: Mode) {
    Collected(u, mode) == u && AfterStatement(u, mode) == None
  }

  // ----- What lookahead sees in collected text was there in the input

  lemma FirstCollected(s: string)
    ensures var u := Collected(s, Plain);
            u != "" ==> s != "" && (u[0] == s[0] || u[0] == '\n')
  {
    hide FindDollar, OpeningTag;
    if s != "" && StartsComment(s) {
      var r := DropLine(s);
      if r != "" {
        assert MoveAt(r, Plain) == Emit([r[0]], r[1..], Plain);
      }
    } else if s != "" {
      var m := MoveAt(s, Plain);
      if m.Emit? {
        EmitsFirst(s, Plain);
      }
    }
  }

  lemma EmitsFirst(s: string, mode: Mode)
    requires s != "" && MoveAt(s, mode).Emit? && !(mode.Plain? && StartsComment(s))
    ensures MoveAt(s, mode).text != "" && MoveAt(s, mode).text[0] == s[0]
    ensures s == MoveAt(s, mode).text + MoveAt(s, mode).rest
  {
  }

  /** A word and a dollar sign. */
  predicate WordDollar(p: string) {
    p != "" && p[|p| - 1] == '$' && AllWord(p[..|p| - 1])
  }

  lemma WordDollarTail(p: string)
    requires WordDollar(p) && |p| > 1
    ensures IsWord(p[0]) && WordDollar(p[1..])
  {
    var q := p[1..];
    assert p[..|p| - 1][0] == p[0];
    assert q[..|q| - 1] == p[..|p| - 1][1..];
  }

  lemma PrefixTail(p: string, u: string)
    requires p <= u && p != ""
    ensures u[0] == p[0] && p[1..] <= u[1..]
  {
  }

  lemma PrefixCons(p: string, s: string)
    requires p != "" && s != "" && s[0] == p[0] && p[1..] <= s[1..]
    ensures p <= s
  {
    assert p == [p[0]] + p[1..];
    assert s == [s[0]] + s[1..];
  }

  lemma CollectedMove(s: string, mode: Mode)
    requires s != "" && MoveAt(s, mode).Emit?
    ensures var m := MoveAt(s, mode);
            Collected(s, mode) == m.text + Collected(m.rest, m.mode) &&
            AfterStatement(s, mode) == AfterStatement(m.rest, m.mode)
  {
    hide MoveAt;
  }

  /** Outside quotes, a word and a dollar sign at the head of the collected text stand at the head of
    * the input too: no removed comment lies between. */
  lemma {:induction false} WordDollarWasThere(s: string, p: string)
    requires WordDollar(p) && p <= Collected(s, Plain)
    ensures p <= s
    decreases |p|
  {
    hide FindDollar, OpeningTag, Collected;
    FirstCollected(s);
    assert Collected(s, Plain)[0] == p[0];
    if |p| > 1 {
      WordDollarTail(p);
      assert MoveAt(s, Plain) == Emit([s[0]], s[1..], Plain);
      CollectedMove(s, Plain);
      PrefixTail(p, Collected(s, Plain));
      assert Collected(s, Plain)[1..] == Collected(s[1..], Plain);
      WordDollarWasThere(s[1..], p[1..]);
      PrefixCons(p, s);
    }
  }

  /** The same inside a dollar quote. */
  lemma {:induction false} WordDollarWasQuoted(s: string, tag: Tag, p: string)
    requires WordDollar(p) && p <= Collected(s, Dollar(tag))
    ensures p <= s
    decreases |p|
  {
    hide FindDollar, OpeningTag, Collected;
    CollectedEmpty(Dollar(tag));
    assert s != "";
    EmitsFirst(s, Dollar(tag));
    CollectedMove(s, Dollar(tag));
    assert Collected(s, Dollar(tag))[0] == s[0];
    if |p| > 1 {
      WordDollarTail(p);
      assert MoveAt(s, Dollar(tag)) == Emit([s[0]], s[1..], Dollar(tag));
      PrefixTail(p, Collected(s, Dollar(tag)));
      assert Collected(s, Dollar(tag))[1..] == Collected(s[1..], Dollar(tag));
      WordDollarWasQuoted(s[1..], tag, p[1..]);
      PrefixCons(p, s);
    }
  }

  lemma CollectedEmpty(mode: Mode)
    ensures Collected("", mode) == "" && AfterStatement("", mode) == None
  {
  }

  lemma TagShape(t: Tag)
    ensures |t| >= 2 && t[0] == '$' && WordDollar(t[1..])
  {
    var p := t[1..];
    assert p[..|p| - 1] == t[1..|t| - 1];
  }

  /** An opening tag is the first dollar sign, a word, and the next dollar sign. */
  lemma OpensAt(s: string, t: string)
    requires s != "" && s[0] == '$' && t <= s && IsTag(t)
    ensures OpeningTag(s) == Some(t)
  {
    var p := t[1..];
    TagShape(t);
    var k := |p| - 1;
    assert p <= s[1..];
    assert NoDollarBefore(s[1..], k) by {
      assert p[..k] == s[1..][..k];
      forall j | 0 <= j < k ensures s[1..][j] != '$' {
        assert s[1..][j] == p[..k][j];
      }
    }
    assert s[1..][k] == p[k] == '$';
    FirstDollar(s[1..], k);
    assert s[1..][..k] == p[..k];
    assert s[..k + 2] == t;
  }

  // ----- Collected text is stable

  /** Behind one move that keeps its text, stable text stays stable. */
  lemma StableCons(text: string, u: string, mode: Mode, next: Mode)
    requires text != "" && Stable(u, next)
    requires MoveAt(text + u, mode) == Emit(text, u, next)
    ensures Stable(text + u, mode)
  {
    hide MoveAt;
    CollectedMove(text + u, mode);
  }

  /** A character the scanner kept is kept again in front of the collected text. */
  lemma KeepsChar(s: string, mode: Mode)
    requires s != "" && MoveAt(s, mode) == Emit([s[0]], s[1..], mode)
    requires !(mode.Plain? && StartsComment(s))
    ensures var u := Collected(s[1..], mode);
            MoveAt([s[0]] + u, mode) == Emit([s[0]], u, mode)
  {
    hide Collected, FindDollar, OpeningTag;
    var u := Collected(s[1..], mode);
    var v := [s[0]] + u;
    assert v[1..] == u;
    if s[0] == '-' && mode.Plain? {
      FirstCollected(s[1..]);
      assert |s| > 1 ==> s[1..][0] == s[1];
      assert u != "" ==> v[1] == u[0];
    }
    if s[0] == '$' && mode.Dollar? && mode.tag <= v {
      TagShape(mode.tag);
      PrefixTail(mode.tag, v);
      WordDollarWasQuoted(s[1..], mode.tag, mode.tag[1..]);
      PrefixCons(mode.tag, s);
    }
    if s[0] == '$' && mode.Plain? {
      NotOpening(s);
      if OpeningTag(v).Some? {
        var t: Tag := OpeningTag(v).value;
        TagShape(t);
        PrefixTail(t, v);
        WordDollarWasThere(s[1..], t[1..]);
        PrefixCons(t, s);
        OpensAt(s, t);
      }
    }
  }

  lemma NotOpening(s: string)
    requires s != "" && s[0] == '$' && MoveAt(s, Plain) == Emit([s[0]], s[1..], Plain)
    ensures OpeningTag(s) == None
  {
    hide FindDollar;
  }

  lemma {:induction false} CollectedIsStable(s: string, mode: Mode)
    ensures Stable(Collected(s, mode), mode)
    decreases |s|
  {
    hide FindDollar, OpeningTag, Collected, Stable;
    CollectedEmpty(mode);
    EmptyIsStable(mode);
    if s != "" {
      if MoveAt(s, mode).Emit? {
        var text, rest, next := MoveAt(s, mode).text, MoveAt(s, mode).rest, MoveAt(s, mode).mode;
        CollectedMove(s, mode);
        CollectedIsStable(rest, next);
        var u := Collected(rest, next);
        if mode.Plain? && StartsComment(s) {
          assert text + u == u;
        } else {
          MoveKept(s, mode);
          StableCons(text, u, mode, next);
        }
      } else {
        CollectedStops(s, mode);
      }
    }
  }

  lemma EmptyIsStable(mode: Mode)
    ensures Stable("", mode)
  {
  }

  lemma CollectedStops(s: string, mode: Mode)
    requires s != "" && MoveAt(s, mode).Terminator?
    ensures Collected(s, mode) == ""
  {
  }

  /** The move that collected this text is made again in front of what was collected after it. */
  lemma MoveKept(s: string, mode: Mode)
    requires s != "" && MoveAt(s, mode).Emit? && !(mode.Plain? && StartsComment(s))
    ensures
      var m := MoveAt(s, mode);
      var u := Collected(m.rest, m.mode);
      m.text != "" && MoveAt(m.text + u, mode) == Emit(m.text, u, m.mode)
  {
    hide FindDollar, OpeningTag, Collected;
    var m := MoveAt(s, mode);
    var u := Collected(m.rest, m.mode);
    var v := m.text + u;
    EmitsFirst(s, mode);
    assert v[|m.text|..] == u;
    assert v[0] == s[0];
    if s[0] == '$' && mode.Dollar? && mode.tag <= s {
    } else if s[0] == '$' && mode.Plain? && OpeningTag(s).Some? {
      OpensAt(v, m.text);
    } else if !mode.Dollar? && s[0] == '\'' {
    } else {
      KeepsChar(s, mode);
    }
  }

  // ----- Trimming keeps stability

  lemma StableUncons(u: string, mode: Mode)
    requires u != "" && Stable(u, mode)
    ensures MoveAt(u, mode).Emit? && !(mode.Plain? && StartsComment(u))
    ensures Stable(MoveAt(u, mode).rest, MoveAt(u, mode).mode)
    ensures u == MoveAt(u, mode).text + MoveAt(u, mode).rest
  {
    hide FindDollar, OpeningTag;
    if MoveAt(u, mode).Emit? {
      CollectedMove(u, mode);
      var m := MoveAt(u, mode);
      if !(mode.Plain? && StartsComment(u)) {
        EmitsFirst(u, mode);
        assert u[|m.text|..] == m.rest == Collected(m.rest, m.mode);
      }
    }
  }

  lemma {:induction false} TrimStartIsStable(u: string)
    requires Stable(u, Plain)
    ensures Stable(TrimStart(u), Plain)
    decreases |u|
  {
    hide Stable, FindDollar, OpeningTag;
    if u != "" && IsWs(u[0]) {
      StableUncons(u, Plain);
      assert MoveAt(u, Plain) == Emit([u[0]], u[1..], Plain);
      TrimStartIsStable(u[1..]);
    }
  }

  /** A prefix of stable text that blanks complete is stable: no lookahead reaches into the blanks. */
  lemma {:induction false} DropsBlanks(v: string, w: string, mode: Mode)
    requires Stable(v + w, mode) && AllWs(w)
    ensures Stable(v, mode)
    decreases |v|
  {
    hide Stable, FindDollar, OpeningTag;
    EmptyIsStable(mode);
    if v != "" {
      var u := v + w;
      StableUncons(u, mode);
      var m := MoveAt(u, mode);
      MoveWithinPrefix(v, w, mode);
      var rest := v[|m.text|..];
      assert m.rest == rest + w;
      DropsBlanks(rest, w, m.mode);
      assert v == m.text + rest;
      EmitsFirst(u, mode);
      StableCons(m.text, rest, mode, m.mode);
    }
  }

  lemma MoveWithinPrefix(v: string, w: string, mode: Mode)
    requires v != "" && AllWs(w) && MoveAt(v + w, mode).Emit? && !(mode.Plain? && StartsComment(v + w))
    ensures
      var m := MoveAt(v + w, mode);
      |m.text| <= |v| && m.text == v[..|m.text|] && MoveAt(v, mode) == Emit(m.text, v[|m.text|..], m.mode)
  {
    hide FindDollar, OpeningTag;
    var u := v + w;
    var m := MoveAt(u, mode);
    EmitsFirst(u, mode);
    assert u[0] == v[0];
    assert StartsComment(v) ==> StartsComment(u);
    if v[0] == '$' && mode.Dollar? {
      TagInPrefix(v, w, mode.tag);
    }
    if v[0] == '$' && mode.Plain? {
      if OpeningTag(u).Some? {
        TagInPrefix(v, w, OpeningTag(u).value);
        OpensAt(v, OpeningTag(u).value);
      } else if OpeningTag(v).Some? {
        TagInPrefix(v, w, OpeningTag(v).value);
        OpensAt(u, OpeningTag(v).value);
      }
    }
    assert |m.text| <= |v|;
    assert m.text == u[..|m.text|] == v[..|m.text|];
  }

  lemma TagInPrefix(v: string, w: string, t: Tag)
    requires AllWs(w)
    ensures t <= v + w <==> t <= v
  {
    if |v| < |t| <= |v + w| {
      assert (v + w)[|t| - 1] == w[|t| - 1 - |v|];
      assert IsWs(w[|t| - 1 - |v|]);
    }
  }

  lemma TrimEndIsStable(a: string)
    requires Stable(a, Plain)
    ensures Stable(TrimEnd(a), Plain)
  {
    hide Stable;
    var b := TrimEnd(a);
    assert a == b + a[|b|..];
    DropsBlanks(b, a[|b|..], Plain);
  }

  lemma TrimIsStable(u: string)
    requires Stable(u, Plain)
    ensures Stable(Trim(u), Plain)
  {
    hide Stable, TrimStart, TrimEnd;
    TrimStartIsStable(u);
    TrimEndIsStable(TrimStart(u));
  }

  lemma TrimIdle(t: string)
    requires t != "" && !IsWs(t[0]) && !IsWs(t[|t| - 1])
    ensures Trim(t) == t
  {
  }

  lemma TrimOnce(u: string)
    ensures Trim(Trim(u)) == Trim(u)
  {
    var a := TrimStart(u);
    var b := TrimEnd(a);
    if b != "" {
      assert b[0] == a[0];
      TrimIdle(b);
    }
  }

  lemma StableSplits(t: string)
    requires Stable(t, Plain) && t != "" && Trim(t) == t
    ensures Statements(t) == [t]
  {
    hide Trim;
  }

  /** Splitting a statement the splitter returned gives exactly that statement. */
  lemma {:induction false} SplitIsStable(input: string, t: string)
    requires t in Statements(input)
    ensures Statements(t) == [t]
    decreases |input|
  {
    hide Trim, Stable, Collected, AfterStatement;
    var u := Collected(input, Plain);
    if t in Kept(u) {
      assert t == Trim(u);
      CollectedIsStable(input, Plain);
      TrimIsStable(u);
      TrimOnce(u);
      StableSplits(t);
    } else {
      SplitIsStable(AfterStatement(input, Plain).value, t);
    }
  }

  // ----- Counting

  /** Every dollar sign outside quotes that has another one behind it opens a word tag. */
  predicate WordMarkers(s: string, mode: Mode)
    decreases |s|
  {
    s != "" ==>
      (mode.Plain? && s[0] == '$' && FindDollar(s[1..]).Some? ==> OpeningTag(s).Some?) &&
      match MoveAt(s, mode)
      case Emit(_, rest, next) => WordMarkers(rest, next)
      case Terminator(after) => WordMarkers(after, Plain)
  }

  function Counted(mode: Mode): CountMode {
    match mode
    case Plain => CPlain
    case Quoted => CQuoted
    case Dollar(tag) => CDollar(tag)
  }

  predicate HasText(s: string) {
    exists k :: 0 <= k < |s| && !IsWs(s[k])
  }

  lemma TrimsToNothing(s: string)
    ensures Trim(s) == "" <==> !HasText(s)
  {
    var a := TrimStart(s);
    var b := TrimEnd(a);
    if b != "" {
      assert s[|s| - |a|] == a[0] == b[0];
    } else {
      assert AllWs(a[0..]) && a[0..] == a;
      assert a == "";
      assert s[..|s|] == s;
    }
  }

  lemma KeptCount(text: string)
    ensures |Kept(text)| == Tally(HasText(text))
  {
    hide Trim, HasText;
    TrimsToNothing(text);
  }

  lemma HasTextSnoc(s: string, c: char)
    ensures HasText(s + [c]) <==> HasText(s) || !IsWs(c)
  {
    if HasText(s) {
      var k :| 0 <= k < |s| && !IsWs(s[k]);
      assert (s + [c])[k] == s[k];
    }
    assert (s + [c])[|s|] == c;
  }

  lemma HasTextTag(s: string, t: Tag)
    ensures HasText(s + t)
  {
    assert (s + t)[|s|] == '$';
  }

  lemma HasTextMore(s: string, t: Tag)
    requires HasText(s)
    ensures HasText(s + t)
  {
    var k :| 0 <= k < |s| && !IsWs(s[k]);
    assert (s + t)[k] == s[k];
  }

  /** A move of the splitter is a move of the counter. */
  lemma SameMove(s: string, mode: Mode, current: string)
    requires s != ""
    requires mode.Plain? && s[0] == '$' && FindDollar(s[1..]).Some? ==> OpeningTag(s).Some?
    requires mode.Dollar? ==> HasText(current)
    ensures
      var c := CountMoveAt(s, Counted(mode), HasText(current));
      match MoveAt(s, mode)
      case Terminator(after) => c == CountMove(Tally(HasText(current)), after, CPlain, false)
      case Emit(text, rest, next) =>
        c == CountMove(0, rest, Counted(next), HasText(current + text)) && (next.Dollar? ==> HasText(current + text))
  {
    hide HasText;
    var m := MoveAt(s, mode);
    if mode.Plain? && StartsComment(s) {
      assert current + "" == current;
    } else if s[0] == '$' && mode.Dollar? && mode.tag <= s {
      HasTextMore(current, mode.tag);
    } else if s[0] == '$' && mode.Plain? && OpeningTag(s).Some? {
      HasTextTag(current, m.text);
      assert s[1..][..FindDollar(s[1..]).value] == s[1..FindDollar(s[1..]).value + 1];
    } else {
      HasTextSnoc(current, s[0]);
    }
  }

  lemma {:induction false} CountsPending(current: string, s: string, mode: Mode)
    requires WordMarkers(s, mode) && (mode.Dollar? ==> HasText(current))
    ensures CountFrom(s, Counted(mode), HasText(current)) == |Pending(current, s, mode)|
    decreases |s|
  {
    hide HasText, MoveAt, CountMoveAt, Kept, Pending, FindDollar, OpeningTag;
    if s == "" {
      PendingDone(current, mode);
      KeptCount(current);
    } else {
      PendingMove(current, s, mode);
      SameMove(s, mode, current);
      match MoveAt(s, mode) {
        case Emit(text, rest, next) => CountsPending(current + text, rest, next);
        case Terminator(after) =>
          KeptCount(current);
          NoText();
          CountsPending("", after, Plain);
      }
    }
  }

  lemma NoText()
    ensures !HasText("")
  {
  }

  /** Where every top-level dollar marker is a word, the counter counts the splitter's statements. */
  lemma CountsStatements(ddl: string)
    requires WordMarkers(ddl, Plain)
    ensures CountFrom(ddl, CPlain, false) == |Statements(ddl)|
  {
    hide HasText, Pending, Statements, CountFrom, WordMarkers;
    NoText();
    CountsPending("", ddl, Plain);
    PendingWhole(ddl);
  }

  /** And it need not elsewhere: two dollar signs around a semicolon hide it from the counter only. */
  lemma CountCanDiffer()
    ensures |Statements("$ ; $")| == 2
    ensures CountFrom("$ ; $", CPlain, false) == 1
  {
    var s := "$ ; $";
    assert s[1..] == " ; $" && s[1..][1..] == "; $" && s[1..][1..][1..] == " $" && s[1..][1..][1..][1..] == "$";
    FirstDollar(s[1..], 3);
    assert !AllWord(s[1..][..3]) by {
      assert s[1..][..3][0] == ' ';
    }
    assert OpeningTag(s) == None;
    assert MoveAt(s, Plain) == Emit("$", " ; $", Plain);
    assert MoveAt(" ; $", Plain) == Emit(" ", "; $", Plain);
    assert MoveAt("; $", Plain) == Terminator(" $");
    assert MoveAt(" $", Plain) == Emit(" ", "$", Plain);
    assert "$"[1..] == "";
    assert MoveAt("$", Plain) == Emit("$", "", Plain);
    TwoCounted();
    OneCounted();
  }

  lemma TwoCounted()
    requires MoveAt("$ ; $", Plain) == Emit("$", " ; $", Plain)
    requires MoveAt(" ; $", Plain) == Emit(" ", "; $", Plain)
    requires MoveAt("; $", Plain) == Terminator(" $")
    requires MoveAt(" $", Plain) == Emit(" ", "$", Plain)
    requires MoveAt("$", Plain) == Emit("$", "", Plain)
    ensures |Statements("$ ; $")| == 2
  {
    hide MoveAt, Kept;
    CollectedMove("$ ; $", Plain);
    CollectedMove(" ; $", Plain);
    CollectedMove(" $", Plain);
    CollectedMove("$", Plain);
    CollectedEmpty(Plain);
    CollectedStops("; $", Plain);
    KeptCount("$ ");
    KeptCount(" $");
    assert Collected("$ ; $", Plain) == "$ ";
    assert Collected(" $", Plain) == " $";
    assert "$ "[0] == '$' && " $"[1] == '$';
  }

  lemma OneCounted()
    requires FindDollar("$ ; $"[1..]) == Some(3)
    ensures CountFrom("$ ; $", CPlain, false) == 1
  {
    var s := "$ ; $";
    var m := CountMoveAt(s, CPlain, false);
    assert m.rest == "" && m.mode == CDollar(s[..5]) && m.hasText && m.add == 0;
  }

  // ----- Markers that are not words

  /** No dollar sign, no quote and no comment. */
  predicate Calm(t: string) {
    (forall c | c in t :: c != '$' && c != '\'') &&
    forall k :: 0 <= k < |t| - 1 ==> !(t[k] == '-' && t[k + 1] == '-')
  }

  lemma CalmTail(t: string)
    requires Calm(t) && t != ""
    ensures Calm(t[1..]) && (t + "$")[0] == t[0] && (t + "$")[1..] == t[1..] + "$"
  {
    forall c | c in t[1..] ensures c != '$' && c != '\'' {
      assert c in t;
    }
    assert forall k :: 0 <= k < |t[1..]| ==> t[1..][k] == t[k + 1];
  }

  lemma CalmMove(t: string)
    requires Calm(t) && t != ""
    ensures MoveAt(t + "$", Plain) ==
            if t[0] == ';' then Terminator(t[1..] + "$") else Emit([t[0]], t[1..] + "$", Plain)
  {
    CalmTail(t);
    assert t[0] in t;
    assert (t + "$")[1] == if |t| > 1 then t[1] else '$';
    assert !StartsComment(t + "$");
    hide FindDollar, DropLine;
  }

  lemma LastDollar()
    ensures MoveAt("$", Plain) == Emit("$", "", Plain)
  {
    assert "$"[1..] == "";
  }

  /** In calm text a statement ends at the first semicolon, and runs to the end when there is none. */
  lemma {:induction false} CalmStatement(t: string) returns (u: string)
    requires Calm(t)
    ensures ';' !in t ==> AfterStatement(t + "$", Plain).None? && Collected(t + "$", Plain) == t + "$"
    ensures ';' in t ==> Calm(u) && |u| < |t| && AfterStatement(t + "$", Plain) == Some(u + "$")
  {
    hide MoveAt, Calm;
    u := "";
    if t == "" {
      assert t + "$" == "$";
      LastDollar();
      CollectedMove("$", Plain);
      CollectedEmpty(Plain);
    } else {
      CalmTail(t);
      CalmMove(t);
      if t[0] == ';' {
        u := t[1..];
      } else {
        CollectedMove(t + "$", Plain);
        u := CalmStatement(t[1..]);
        assert [t[0]] + (t[1..] + "$") == t + "$";
      }
    }
  }

  lemma {:induction false} CalmCounted(t: string)
    requires Calm(t)
    ensures |Statements(t + "$")| >= 1
    decreases |t|
  {
    hide MoveAt, Calm, Kept, AfterStatement;
    var u := CalmStatement(t);
    if ';' in t {
      CalmCounted(u);
    } else {
      KeptCount(t + "$");
      HasTextSnoc(t, '$');
      assert !IsWs('$');
    }
  }

  lemma CalmMarker(t: string)
    requires Calm(t)
    ensures
      var s := "$" + t + "$";
      && s[1..] == t + "$" && FindDollar(s[1..]) == Some(|t|) && s[1..][..|t|] == t
      && s[|t| + 2..] == "" && s[..|t| + 2] == s
  {
    var s := "$" + t + "$";
    assert s[1..] == t + "$";
    forall k | 0 <= k < |t| ensures s[1..][k] != '$' {
      assert s[1..][k] == t[k] && t[k] in t;
    }
    FirstDollar(s[1..], |t|);
  }

  lemma CountsMarker(t: string)
    requires Calm(t)
    ensures CountFrom("$" + t + "$", CPlain, false) == 1
  {
    CalmMarker(t);
    var s := "$" + t + "$";
    assert CountMoveAt(s, CPlain, false) == CountMove(0, "", CDollar(s), true);
  }

  lemma WordMarkerOpens(s: string)
    requires |s| >= 2 && s[0] == '$' && FindDollar(s[1..]) == Some(|s| - 2) && AllWord(s[1..][..|s| - 2])
    ensures IsTag(s) && MoveAt(s, Plain) == Emit(s, "", Dollar(s))
  {
    hide FindDollar;
    assert s[..|s|] == s && s[|s|..] == "";
    assert s[1..][..|s| - 2] == s[1..|s| - 1];
    assert s[1..][|s| - 2] == '$';
  }

  lemma CountsWordMarker(t: string)
    requires Calm(t) && AllWord(t)
    ensures |Statements("$" + t + "$")| == 1 && ';' !in t
  {
    CalmMarker(t);
    var s := "$" + t + "$";
    WordMarkerOpens(s);
    assert ';' !in t;
    hide MoveAt, Kept, Calm, AllWord, IsTag;
    CollectedMove(s, Plain);
    CollectedEmpty(Dollar(s));
    assert s + "" == s;
    KeptCount(s);
    assert s[0] == '$' && !IsWs('$');
  }

  lemma SplitsMarker(t: string)
    requires Calm(t) && !AllWord(t)
    ensures |Statements("$" + t + "$")| == 1 <==> ';' !in t
  {
    CalmMarker(t);
    var s := "$" + t + "$";
    assert MoveAt(s, Plain) == Emit("$", t + "$", Plain);
    hide MoveAt, Kept, Calm, AllWord;
    CollectedMove(s, Plain);
    var u := CalmStatement(t);
    var kept := "$" + Collected(t + "$", Plain);
    assert kept[0] == '$';
    KeptCount(kept);
    if ';' in t {
      CalmCounted(u);
    }
  }

  /** Between two dollar signs with no quote and no comment the counter always sees one statement, and the
    * splitter agrees exactly when no semicolon stands there. */
  lemma MarkersAgreeExactly(t: string)
    requires Calm(t)
    ensures CountFrom("$" + t + "$", CPlain, false) == 1
    ensures CountFrom("$" + t + "$", CPlain, false) == |Statements("$" + t + "$")| <==> ';' !in t
  {
    hide Calm, Statements, CountFrom;
    CountsMarker(t);
    if AllWord(t) {
      CountsWordMarker(t);
    } else {
      SplitsMarker(t);
    }
  }
}
