/** What splitting means, told without the scanner: a script is a list of pieces, its statements are the texts
  * between top-level semicolons, and every input is a script. */
module SqlScripts {
  import opened Text
  import opened Wrappers
  import opened SqlSplit
  import opened SqlSplitProofs

  datatype Piece = Char(c: char) | Literal(body: string) | Dollared(tag: Tag, body: string) | Comment(text: string) | Semicolon

  /** How the input ends: in the open, or inside a quotation that is never closed. */
  datatype End = InTheOpen | InQuotes(body: string) | InDollars(tag: Tag, body: string)

  function PieceText(p: Piece): string {
    match p
    case Char(c) => [c]
    case Literal(body) => "'" + body + "'"
    case Dollared(tag, body) => tag + body + tag
    case Comment(text) => "--" + text
    case Semicolon => ";"
  }

  function EndText(e: End): string {
    match e
    case InTheOpen => ""
    case InQuotes(body) => "'" + body
    case InDollars(tag, body) => tag + body
  }

  function ScriptText(ps: seq<Piece>, e: End): string {
    if ps == [] then EndText(e) else PieceText(ps[0]) + ScriptText(ps[1..], e)
  }

  /** `t` does not occur in `s` before position `n`. */
  predicate Absent(t: string, s: string, n: nat)
    requires n <= |s|
  {
    forall k :: 0 <= k < n ==> !(t <= s[k..])
  }

  /** What makes the piece the one that stands at the head of the input, `after` being the rest of it. */
  predicate PieceOk(p: Piece, after: string) {
    match p
    case Char(c) =>
      && c != '\'' && c != ';'
      && (c == '-' ==> !("-" <= after))
      && (c == '$' ==> forall k :: 0 <= k < |after| && after[k] == '$' ==> !AllWord(after[..k]))
    case Literal(body) => '\'' !in body
    case Dollared(tag, body) => Absent(tag, body + tag, |body|)
    case Comment(text) => '\n' !in text && (after == "" || after[0] == '\n')
    case Semicolon => true
  }

  predicate EndOk(e: End) {
    match e
    case InTheOpen => true
    case InQuotes(body) => '\'' !in body
    case InDollars(tag, body) => Absent(tag, body, |body|)
  }

  predicate ScriptOk(ps: seq<Piece>, e: End) {
    if ps == [] then EndOk(e) else PieceOk(ps[0], ScriptText(ps[1..], e)) && ScriptOk(ps[1..], e)
  }

  // ----- Meaning

  /** Comments go, everything else stays. */
  function PieceKept(p: Piece): string {
    if p.Comment? then "" else PieceText(p)
  }

  /** The texts between the semicolons. */
  function Texts(ps: seq<Piece>, e: End): (r: seq<string>)
    ensures r != []
  {
    if ps == [] then [EndText(e)]
    else
      var more := Texts(ps[1..], e);
      if ps[0].Semicolon? then [""] + more else [PieceKept(ps[0]) + more[0]] + more[1..]
  }

  /** Trimmed, without the blank ones. */
  function Tidy(texts: seq<string>): seq<string> {
    if texts == [] then [] else (if Trim(texts[0]) == "" then [] else [Trim(texts[0])]) + Tidy(texts[1..])
  }

  // ----- Each piece, as the scanner reads it

  /** The scanner passes over `text`, keeps `kept` of it, and goes on in the open. */
  predicate Passes(text: string, mode: Mode, kept: string, after: string) {
    && Collected(text + after, mode) == kept + Collected(after, Plain)
    && AfterStatement(text + after, mode) == AfterStatement(after, Plain)
  }

  lemma PassStep(c: char, text: string, mode: Mode, next: Mode, kept: string, after: string)
    requires MoveAt([c] + (text + after), mode) == Emit([c], text + after, next)
    requires Passes(text, next, kept, after)
    ensures Passes([c] + text, mode, [c] + kept, after)
  {
    hide MoveAt;
    assert ([c] + text) + after == [c] + (text + after);
    CollectedMove([c] + (text + after), mode);
    assert [c] + (kept + Collected(after, Plain)) == ([c] + kept) + Collected(after, Plain);
  }

  lemma QuotedMove(c: char, rest: string)
    ensures MoveAt([c] + rest, Mode.Quoted) == Emit([c], rest, if c == '\'' then Plain else Mode.Quoted)
  {
    assert ([c] + rest)[1..] == rest;
  }

  lemma PassNothing(after: string)
    ensures Passes("", Plain, "", after)
  {
    hide Collected, AfterStatement;
    assert "" + after == after;
  }

  lemma {:induction false} PassesQuotes(body: string, after: string)
    requires '\'' !in body
    ensures Passes(body + "'", Mode.Quoted, body + "'", after)
  {
    hide Passes, MoveAt;
    if body == "" {
      PassNothing(after);
      QuotedMove('\'', "" + after);
      PassStep('\'', "", Mode.Quoted, Plain, "", after);
      assert "'" + "" == "" + "'";
    } else {
      assert body[0] in body && forall c :: c in body[1..] ==> c in body;
      PassesQuotes(body[1..], after);
      QuotedMove(body[0], (body[1..] + "'") + after);
      PassStep(body[0], body[1..] + "'", Mode.Quoted, Mode.Quoted, body[1..] + "'", after);
      assert [body[0]] + (body[1..] + "'") == body + "'";
    }
  }

  lemma DollarMove(tag: Tag, c: char, rest: string)
    requires !(tag <= [c] + rest)
    ensures MoveAt([c] + rest, Dollar(tag)) == Emit([c], rest, Dollar(tag))
  {
    assert ([c] + rest)[1..] == rest;
  }

  lemma ClosingMove(tag: Tag, after: string)
    ensures MoveAt(tag + after, Dollar(tag)) == Emit(tag, after, Plain)
  {
    assert (tag + after)[|tag|..] == after;
  }

  lemma AbsentTail(t: string, body: string, tail: string)
    requires body != "" && Absent(t, body + tail, |body|)
    ensures Absent(t, body[1..] + tail, |body| - 1)
    ensures !(t <= body + tail)
  {
    assert (body + tail)[1..] == body[1..] + tail;
    forall k | 0 <= k < |body| - 1 ensures !(t <= (body[1..] + tail)[k..]) {
      assert (body + tail)[k + 1..] == (body[1..] + tail)[k..];
    }
    assert (body + tail)[0..] == body + tail;
  }

  lemma NoLongerPrefix(t: string, s: string, after: string)
    requires !(t <= s) && |t| <= |s|
    ensures !(t <= s + after)
  {
  }

  lemma {:induction false} PassesDollars(tag: Tag, body: string, after: string)
    requires Absent(tag, body + tag, |body|)
    ensures Passes(body + tag, Dollar(tag), body + tag, after)
  {
    hide MoveAt;
    if body == "" {
      assert "" + tag == tag;
      ClosingMove(tag, after);
      CollectedMove(tag + after, Dollar(tag));
    } else {
      hide Passes;
      AbsentTail(tag, body, tag);
      PassesDollars(tag, body[1..], after);
      NoLongerPrefix(tag, body + tag, after);
      var rest := (body[1..] + tag) + after;
      assert [body[0]] + rest == (body + tag) + after;
      DollarMove(tag, body[0], rest);
      PassStep(body[0], body[1..] + tag, Dollar(tag), Dollar(tag), body[1..] + tag, after);
      assert [body[0]] + (body[1..] + tag) == body + tag;
    }
  }

  /** A tag at the head of the input opens a dollar quote. */
  lemma TagOpens(tag: Tag, rest: string)
    ensures MoveAt(tag + rest, Plain) == Emit(tag, rest, Dollar(tag))
  {
    hide FindDollar;
    var s := tag + rest;
    var word := tag[1..|tag| - 1];
    assert s[1..][|word|] == '$' && s[1..][..|word|] == word;
    FirstDollar(s[1..], |word|);
    assert s[..|tag|] == tag && s[|tag|..] == rest;
  }

  lemma DropsComment(text: string, after: string)
    requires '\n' !in text && (after == "" || after[0] == '\n')
    ensures StartsComment("--" + text + after) && DropLine("--" + text + after) == after
  {
    LineDropped(text, after);
    var s := "--" + text + after;
    assert s[1..] == "-" + (text + after) && s[1..][1..] == text + after;
    assert DropLine(s) == DropLine(s[1..]) == DropLine(s[1..][1..]);
  }

  lemma CommentHead(s: string)
    requires StartsComment(s)
    ensures MoveAt(s, Plain) == Emit("", DropLine(s), Plain)
    ensures CountMoveAt(s, CPlain, false) == CountMove(0, DropLine(s), CPlain, false)
  {
    hide FindDollar, OpeningTag, DropLine;
  }

  lemma CommentMove(text: string, after: string)
    requires '\n' !in text && (after == "" || after[0] == '\n')
    ensures MoveAt("--" + text + after, Plain) == Emit("", after, Plain)
  {
    hide MoveAt, DropLine, StartsComment;
    DropsComment(text, after);
    CommentHead("--" + text + after);
  }

  lemma {:induction false} LineDropped(text: string, after: string)
    requires '\n' !in text && (after == "" || after[0] == '\n')
    ensures DropLine(text + after) == after
  {
    if text == "" {
      assert text + after == after;
    } else {
      assert text[0] in text && forall c :: c in text[1..] ==> c in text;
      assert (text + after)[1..] == text[1..] + after;
      LineDropped(text[1..], after);
    }
  }

  lemma CharMove(c: char, after: string)
    requires PieceOk(Char(c), after)
    ensures MoveAt([c] + after, Plain) == Emit([c], after, Plain)
  {
    hide FindDollar, DropLine;
    assert ([c] + after)[1..] == after;
    if c == '$' && FindDollar(after).Some? {
      var k := FindDollar(after).value;
      assert after[k] == '$' && !AllWord(after[..k]);
    }
  }

  lemma PiecePasses(p: Piece, after: string)
    requires PieceOk(p, after) && !p.Semicolon?
    ensures Passes(PieceText(p), Plain, PieceKept(p), after)
  {
    hide MoveAt, Absent, AllWord, OpeningTag, FindDollar, Passes;
    match p {
      case Char(c) =>
        CharMove(c, after);
        PassNothing(after);
        assert "" + after == after && [c] + "" == [c];
        PassStep(c, "", Plain, Plain, "", after);
      case Literal(body) =>
        PassesQuotes(body, after);
        QuoteOpens((body + "'") + after);
        PassStep('\'', body + "'", Plain, Mode.Quoted, body + "'", after);
        assert "'" + (body + "'") == "'" + body + "'";
      case Dollared(tag, body) => PassesDollared(tag, body, after);
      case Comment(text) =>
        CommentMove(text, after);
        CommentPasses(text, after);
    }
  }

  lemma CommentPasses(text: string, after: string)
    requires MoveAt("--" + text + after, Plain) == Emit("", after, Plain)
    ensures Passes("--" + text, Plain, "", after)
  {
    hide MoveAt;
    CollectedMove("--" + text + after, Plain);
    assert ("--" + text) + after == "--" + text + after;
  }

  lemma QuoteOpens(rest: string)
    ensures MoveAt("'" + rest, Plain) == Emit("'", rest, Mode.Quoted)
  {
    assert ("'" + rest)[1..] == rest;
  }

  lemma PassesDollared(tag: Tag, body: string, after: string)
    requires Absent(tag, body + tag, |body|)
    ensures Passes(tag + body + tag, Plain, tag + body + tag, after)
  {
    hide MoveAt;
    var rest := (body + tag) + after;
    PassesDollars(tag, body, after);
    TagOpens(tag, rest);
    TagIsLong(tag);
    CollectedMove(tag + rest, Plain);
    assert (tag + body + tag) + after == tag + rest;
    assert tag + ((body + tag) + Collected(after, Plain)) == (tag + body + tag) + Collected(after, Plain);
  }

  // ----- The end of the input

  lemma {:induction false} OpenQuotes(body: string)
    requires '\'' !in body
    ensures Collected(body, Mode.Quoted) == body && AfterStatement(body, Mode.Quoted) == None
  {
    hide MoveAt;
    if body != "" {
      assert body[0] in body && forall c :: c in body[1..] ==> c in body;
      OpenQuotes(body[1..]);
      assert [body[0]] + body[1..] == body;
      QuotedMove(body[0], body[1..]);
      CollectedMove(body, Mode.Quoted);
    }
  }

  lemma {:induction false} OpenDollars(tag: Tag, body: string)
    requires Absent(tag, body, |body|)
    ensures Collected(body, Dollar(tag)) == body && AfterStatement(body, Dollar(tag)) == None
  {
    hide MoveAt;
    if body != "" {
      assert body + "" == body && body[1..] + "" == body[1..];
      AbsentTail(tag, body, "");
      OpenDollars(tag, body[1..]);
      assert [body[0]] + body[1..] == body;
      DollarMove(tag, body[0], body[1..]);
      CollectedMove(body, Dollar(tag));
    }
  }

  lemma EndCollected(e: End)
    requires EndOk(e)
    ensures Collected(EndText(e), Plain) == EndText(e) && AfterStatement(EndText(e), Plain) == None
  {
    hide MoveAt, Absent;
    match e {
      case InTheOpen => CollectedEmpty(Plain);
      case InQuotes(body) =>
        OpenQuotes(body);
        QuoteOpens(body);
        CollectedMove("'" + body, Plain);
      case InDollars(tag, body) =>
        OpenDollars(tag, body);
        TagOpens(tag, body);
        TagIsLong(tag);
        CollectedMove(tag + body, Plain);
    }
  }

  // ----- Whole scripts

  /** The first statement's text is collected, and the scanner stands at the pieces behind its semicolon. */
  lemma {:induction false} FirstStatement(ps: seq<Piece>, e: End) returns (n: nat)
    requires ScriptOk(ps, e)
    ensures Collected(ScriptText(ps, e), Plain) == Texts(ps, e)[0]
    ensures |Texts(ps, e)| == 1 ==> AfterStatement(ScriptText(ps, e), Plain) == None
    ensures |Texts(ps, e)| > 1 ==>
              && 0 < n <= |ps| && ScriptOk(ps[n..], e) && Texts(ps[n..], e) == Texts(ps, e)[1..]
              && AfterStatement(ScriptText(ps, e), Plain) == Some(ScriptText(ps[n..], e))
  {
    hide PieceOk, EndOk, PieceText, PieceKept, Collected, AfterStatement;
    n := 0;
    if ps == [] {
      EndCollected(e);
    } else if ps[0].Semicolon? {
      n := 1;
      SemicolonEnds(ScriptText(ps[1..], e));
      SemicolonText();
    } else {
      var after := ScriptText(ps[1..], e);
      var m := FirstStatement(ps[1..], e);
      n := m + 1;
      assert m <= |ps[1..]| ==> ps[1..][m..] == ps[n..];
      PiecePasses(ps[0], after);
      var more := Texts(ps[1..], e);
      assert ([PieceKept(ps[0]) + more[0]] + more[1..])[1..] == more[1..];
    }
  }

  lemma SemicolonText()
    ensures PieceText(Semicolon) == ";"
  {
  }

  lemma SemicolonEnds(after: string)
    ensures Collected(";" + after, Plain) == "" && AfterStatement(";" + after, Plain) == Some(after)
  {
    assert (";" + after)[1..] == after;
  }

  /** A script's statements are the texts between its semicolons, without comments, trimmed, and without the blank
    * ones; what stands in quotes, dollar quotes and comments never ends a statement. */
  lemma {:induction false} SplitMeans(ps: seq<Piece>, e: End)
    requires ScriptOk(ps, e)
    ensures Statements(ScriptText(ps, e)) == Tidy(Texts(ps, e))
    decreases |ps|
  {
    hide ScriptOk, ScriptText, Texts, Collected, AfterStatement, Trim;
    var n := FirstStatement(ps, e);
    var texts := Texts(ps, e);
    if |texts| > 1 {
      SplitMeans(ps[n..], e);
    } else {
      assert texts[1..] == [] && Tidy(texts[1..]) == [];
    }
  }

  // ----- Every input is a script

  /** Where `t` first occurs in `s`. */
  lemma FirstOccurrence(t: string, s: string) returns (found: bool, k: nat)
    requires t != ""
    ensures k <= |s| && Absent(t, s, k)
    ensures if found then t <= s[k..] else k == |s|
  {
    k := 0;
    while k < |s| && !(t <= s[k..])
      invariant k <= |s| && Absent(t, s, k)
    {
      k := k + 1;
    }
    found := k < |s|;
  }

  lemma CharOccurs(c: char, s: string) returns (found: bool, k: nat)
    ensures k <= |s| && c !in s[..k]
    ensures if found then k < |s| && s[k] == c else k == |s|
  {
    k := 0;
    while k < |s| && s[k] != c
      invariant k <= |s| && c !in s[..k]
    {
      k := k + 1;
    }
    found := k < |s|;
  }

  lemma AbsentPrefix(t: string, s: string, k: nat)
    requires k + |t| <= |s| && Absent(t, s, k) && t <= s[k..]
    ensures s[..k] + t == s[..k + |t|] && Absent(t, s[..k] + t, k)
  {
    assert s[..k] + t == s[..k + |t|];
    forall j | 0 <= j < k ensures !(t <= (s[..k] + t)[j..]) {
      var p := s[..k + |t|];
      assert s[j..] == p[j..] + s[k + |t|..];
    }
  }

  predicate Heads(p: Piece, e: End, ended: bool, rest: string, s: string) {
    if ended then EndOk(e) && EndText(e) == s else PieceOk(p, rest) && PieceText(p) + rest == s && |rest| < |s|
  }

  /** The piece at the head of the input, and the rest; or the end. */
  lemma HeadPiece(s: string) returns (p: Piece, e: End, ended: bool, rest: string)
    requires s != ""
    ensures Heads(p, e, ended, rest, s)
  {
    if s[0] == '\'' {
      p, e, ended, rest := HeadQuote(s);
    } else if "--" <= s {
      p, e, ended, rest := HeadComment(s);
    } else if s[0] == '$' && OpeningTag(s).Some? {
      p, e, ended, rest := HeadDollar(s);
    } else {
      e, ended, rest := InTheOpen, false, s[1..];
      p := if s[0] == ';' then Semicolon else Char(s[0]);
      HeadChar(s);
    }
  }

  lemma HeadQuote(s: string) returns (p: Piece, e: End, ended: bool, rest: string)
    requires s != "" && s[0] == '\''
    ensures Heads(p, e, ended, rest, s)
  {
    var body := s[1..];
    assert s == "'" + body;
    var found, k := CharOccurs('\'', body);
    if found {
      p, e, ended, rest := Literal(body[..k]), InTheOpen, false, body[k + 1..];
      assert body == body[..k] + "'" + rest;
    } else {
      p, e, ended, rest := Semicolon, InQuotes(body), true, "";
      assert body[..k] == body;
    }
  }

  lemma HeadComment(s: string) returns (p: Piece, e: End, ended: bool, rest: string)
    requires "--" <= s
    ensures Heads(p, e, ended, rest, s)
  {
    var line := s[2..];
    assert s == "--" + line;
    var found, k := CharOccurs('\n', line);
    p, e, ended, rest := Comment(line[..k]), InTheOpen, false, line[k..];
    assert line == line[..k] + rest;
  }

  lemma HeadChar(s: string)
    requires s != "" && s[0] != '\'' && !("--" <= s) && (s[0] == '$' ==> OpeningTag(s).None?)
    ensures Heads(if s[0] == ';' then Semicolon else Char(s[0]), InTheOpen, false, s[1..], s)
  {
    hide FindDollar, AllWord, OpeningTag;
    if s[0] == '$' {
      NoTagHere(s);
    }
    assert s == [s[0]] + s[1..];
    assert "-" <= s[1..] && s[0] == '-' ==> "--" <= s;
  }

  lemma ClosedDollar(tag: Tag, tail: string, k: nat)
    requires k + |tag| <= |tail| && Absent(tag, tail, k) && tag <= tail[k..]
    ensures Heads(Dollared(tag, tail[..k]), InTheOpen, false, tail[k + |tag|..], tag + tail)
  {
    hide Absent, IsTag;
    TagIsLong(tag);
    AbsentPrefix(tag, tail, k);
    var body, rest := tail[..k], tail[k + |tag|..];
    assert |body| == k && tail[..k + |tag|] == body + tag;
    assert tail == (body + tag) + rest;
    assert (tag + body + tag) + rest == tag + ((body + tag) + rest);
  }

  lemma HeadDollar(s: string) returns (p: Piece, e: End, ended: bool, rest: string)
    requires s != "" && s[0] == '$' && OpeningTag(s).Some?
    ensures Heads(p, e, ended, rest, s)
  {
    hide FindDollar, OpeningTag, IsTag, Absent;
    var tag := OpeningTag(s).value;
    TagIsLong(tag);
    var tail := s[|tag|..];
    assert s == tag + tail;
    var found, k := FirstOccurrence(tag, tail);
    if found {
      ClosedDollar(tag, tail, k);
      p, e, ended, rest := Dollared(tag, tail[..k]), InTheOpen, false, tail[k + |tag|..];
    } else {
      p, e, ended, rest := Semicolon, InDollars(tag, tail), true, "";
    }
  }

  lemma NoTagHere(s: string)
    requires s != "" && s[0] == '$' && OpeningTag(s).None?
    ensures forall k :: 0 <= k < |s[1..]| && s[1..][k] == '$' ==> !AllWord(s[1..][..k])
  {
    hide FindDollar;
    var t := s[1..];
    forall k | 0 <= k < |t| && t[k] == '$' ensures !AllWord(t[..k]) {
      if AllWord(t[..k]) {
        forall j | 0 <= j < k ensures t[j] != '$' {
          assert t[..k][j] == t[j];
        }
        FirstDollar(t, k);
      }
    }
  }

  /** Every input is the text of a script: `SplitMeans` says what splitting makes of any input at all. */
  lemma {:induction false} EveryInputIsScript(s: string) returns (ps: seq<Piece>, e: End)
    ensures ScriptOk(ps, e) && ScriptText(ps, e) == s
    decreases |s|
  {
    hide PieceOk, PieceText, Absent;
    if s == "" {
      ps, e := [], InTheOpen;
    } else {
      var p, e', ended, rest := HeadPiece(s);
      if ended {
        ps, e := [], e';
      } else {
        ps, e := EveryInputIsScript(rest);
        assert ([p] + ps)[1..] == ps;
        ps := [p] + ps;
      }
    }
  }

  lemma SplitMeansAnyInput(s: string) returns (ps: seq<Piece>, e: End)
    ensures ScriptOk(ps, e) && ScriptText(ps, e) == s && Statements(s) == Tidy(Texts(ps, e))
  {
    hide ScriptOk, ScriptText, Texts, Statements;
    ps, e := EveryInputIsScript(s);
    SplitMeans(ps, e);
  }

  /** In particular a line comment takes the rest of its line and nothing more. */
  lemma CommentIsDropped(text: string, rest: string)
    requires '\n' !in text
    ensures Statements("--" + text + "\n" + rest) == Statements("\n" + rest)
    ensures CountFrom("--" + text + "\n" + rest, CPlain, false) == CountFrom("\n" + rest, CPlain, false)
  {
    hide MoveAt, Kept, CountFrom;
    var s, after := "--" + text + "\n" + rest, "\n" + rest;
    assert s == "--" + text + after;
    CommentMove(text, after);
    CollectedMove(s, Plain);
    assert "" + Collected(after, Plain) == Collected(after, Plain);
    CommentCounted(text, after);
  }

  lemma CommentCounted(text: string, after: string)
    requires '\n' !in text && after != "" && after[0] == '\n'
    ensures CountFrom("--" + text + after, CPlain, false) == CountFrom(after, CPlain, false)
  {
    hide CountMoveAt, DropLine, StartsComment;
    DropsComment(text, after);
    CommentHead("--" + text + after);
  }

  // ----- The counter

  /** No dollar sign stands by itself. */
  predicate Paired(ps: seq<Piece>) {
    forall p | p in ps :: p != Char('$')
  }

  /** In a script without lone dollar signs the counter counts the statements. */
  lemma CountMeans(ps: seq<Piece>, e: End)
    requires ScriptOk(ps, e) && Paired(ps)
    ensures CountFrom(ScriptText(ps, e), CPlain, false) == |Tidy(Texts(ps, e))|
  {
    hide ScriptOk, ScriptText, Texts, WordMarkers, Statements;
    ScriptWordy(ps, e);
    CountsStatements(ScriptText(ps, e));
    SplitMeans(ps, e);
  }

  lemma WordyStep(s: string, mode: Mode)
    requires s != "" && MoveAt(s, mode).Emit?
    requires mode.Plain? && s[0] == '$' && FindDollar(s[1..]).Some? ==> OpeningTag(s).Some?
    ensures WordMarkers(s, mode) <==> WordMarkers(MoveAt(s, mode).rest, MoveAt(s, mode).mode)
  {
    hide MoveAt, FindDollar, OpeningTag;
  }

  lemma {:induction false} WordyQuotes(body: string, after: string)
    requires '\'' !in body && WordMarkers(after, Plain)
    ensures WordMarkers(body + ("'" + after), Mode.Quoted)
  {
    hide MoveAt, FindDollar, OpeningTag;
    if body == "" {
      assert "" + ("'" + after) == "'" + after;
      QuotedMove('\'', after);
      WordyStep("'" + after, Mode.Quoted);
    } else {
      assert body[0] in body && forall c :: c in body[1..] ==> c in body;
      WordyQuotes(body[1..], after);
      var s := body + ("'" + after);
      assert s == [body[0]] + (body[1..] + ("'" + after));
      QuotedMove(body[0], body[1..] + ("'" + after));
      WordyStep(s, Mode.Quoted);
    }
  }

  lemma {:induction false} WordyDollars(tag: Tag, body: string, after: string)
    requires Absent(tag, body + tag, |body|) && WordMarkers(after, Plain)
    ensures WordMarkers(body + (tag + after), Dollar(tag))
  {
    hide MoveAt, FindDollar, OpeningTag;
    if body == "" {
      assert "" + (tag + after) == tag + after;
      ClosingMove(tag, after);
      TagIsLong(tag);
      WordyStep(tag + after, Dollar(tag));
    } else {
      AbsentTail(tag, body, tag);
      WordyDollars(tag, body[1..], after);
      NoLongerPrefix(tag, body + tag, after);
      var rest := body[1..] + (tag + after);
      var s := body + (tag + after);
      assert s == [body[0]] + rest && s == (body + tag) + after;
      DollarMove(tag, body[0], rest);
      WordyStep(s, Dollar(tag));
    }
  }

  lemma {:induction false} WordyOpenQuotes(body: string)
    requires '\'' !in body
    ensures WordMarkers(body, Mode.Quoted)
  {
    hide MoveAt, FindDollar, OpeningTag;
    if body != "" {
      assert body[0] in body && forall c :: c in body[1..] ==> c in body;
      WordyOpenQuotes(body[1..]);
      assert body == [body[0]] + body[1..];
      QuotedMove(body[0], body[1..]);
      WordyStep(body, Mode.Quoted);
    }
  }

  lemma {:induction false} WordyOpenDollars(tag: Tag, body: string)
    requires Absent(tag, body, |body|)
    ensures WordMarkers(body, Dollar(tag))
  {
    hide MoveAt, FindDollar, OpeningTag;
    if body != "" {
      assert body + "" == body && body[1..] + "" == body[1..];
      AbsentTail(tag, body, "");
      WordyOpenDollars(tag, body[1..]);
      assert body == [body[0]] + body[1..];
      DollarMove(tag, body[0], body[1..]);
      WordyStep(body, Dollar(tag));
    }
  }

  lemma TagIsOpening(tag: Tag, rest: string)
    ensures (tag + rest)[0] == '$' && OpeningTag(tag + rest).Some?
  {
    hide FindDollar;
    var s := tag + rest;
    var word := tag[1..|tag| - 1];
    assert s[1..][|word|] == '$' && s[1..][..|word|] == word;
    FirstDollar(s[1..], |word|);
  }

  lemma EndWordy(e: End)
    requires EndOk(e)
    ensures WordMarkers(EndText(e), Plain)
  {
    hide MoveAt, FindDollar, OpeningTag, Absent;
    match e {
      case InTheOpen =>
      case InQuotes(body) =>
        WordyOpenQuotes(body);
        QuoteOpens(body);
        WordyStep("'" + body, Plain);
      case InDollars(tag, body) =>
        WordyOpenDollars(tag, body);
        TagOpens(tag, body);
        TagIsOpening(tag, body);
        WordyStep(tag + body, Plain);
    }
  }

  lemma PieceWordy(p: Piece, after: string)
    requires PieceOk(p, after) && p != Char('$') && WordMarkers(after, Plain)
    ensures WordMarkers(PieceText(p) + after, Plain)
  {
    hide MoveAt, FindDollar, OpeningTag, Absent, AllWord, WordMarkers;
    match p {
      case Char(c) =>
        CharMove(c, after);
        WordyStep([c] + after, Plain);
      case Literal(body) =>
        WordyQuotes(body, after);
        var s := "'" + (body + ("'" + after));
        assert PieceText(p) + after == s;
        QuoteOpens(body + ("'" + after));
        WordyStep(s, Plain);
      case Dollared(tag, body) =>
        WordyDollars(tag, body, after);
        var s := tag + (body + (tag + after));
        assert PieceText(p) + after == s;
        TagOpens(tag, body + (tag + after));
        TagIsOpening(tag, body + (tag + after));
        WordyStep(s, Plain);
      case Comment(text) =>
        CommentMove(text, after);
        assert PieceText(p) + after == "--" + text + after;
        WordyStep("--" + text + after, Plain);
      case Semicolon => SemicolonWordy(after);
    }
  }

  lemma SemicolonWordy(after: string)
    requires WordMarkers(after, Plain)
    ensures WordMarkers(";" + after, Plain)
  {
    assert (";" + after)[1..] == after;
    assert MoveAt(";" + after, Plain) == Terminator(after);
  }

  lemma {:induction false} ScriptWordy(ps: seq<Piece>, e: End)
    requires ScriptOk(ps, e) && Paired(ps)
    ensures WordMarkers(ScriptText(ps, e), Plain)
  {
    hide PieceOk, PieceText, EndText, EndOk, WordMarkers;
    if ps == [] {
      EndWordy(e);
    } else {
      assert ps[0] in ps && forall p :: p in ps[1..] ==> p in ps;
      ScriptWordy(ps[1..], e);
      PieceWordy(ps[0], ScriptText(ps[1..], e));
    }
  }
}
