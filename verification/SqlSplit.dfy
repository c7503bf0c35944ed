/** The statement splitter and the independent statement counter, on ASCII text. */
module SqlSplit {
  import opened Text
  import opened Wrappers

  // ----- One move of the scanner

  /** `$word$`, possibly with an empty word. */
  predicate IsTag(t: string) {
    |t| >= 2 && t[0] == '$' && t[|t| - 1] == '$' && AllWord(t[1..|t| - 1])
  }

  type Tag = t: string | IsTag(t) witness "$$"

  /** The scanner's `in_str` and `dollar_tag`, which are never both set. */
  datatype Mode = Plain | Quoted | Dollar(tag: Tag)

  datatype Move = Emit(text: string, rest: string, mode: Mode) | Terminator(after: string)

  /** The text from the line break, or the end, on. */
  function DropLine(s: string): (r: string)
    ensures |r| <= |s|
    ensures r != "" ==> r[0] == '\n'
    ensures s != "" && s[0] != '\n' ==> |r| < |s|
  {
    if s == "" || s[0] == '\n' then s else DropLine(s[1..])
  }

  function FindDollar(s: string): (r: Option<nat>)
    ensures r.Some? ==> r.value < |s| && s[r.value] == '$' && '$' !in s[..r.value]
    ensures r.None? ==> '$' !in s
  {
    if s == "" then None
    else if s[0] == '$' then Some(0)
    else
      match FindDollar(s[1..])
      case None => None
      case Some(k) =>
        assert forall c :: c in s[..k + 1] ==> c == s[0] || c in s[1..][..k];
        Some(k + 1)
  }

  /** The tag that a dollar sign at the start of `s` opens: everything up to the next dollar sign of
    * the whole remaining input, if that is a word. */
  function OpeningTag(s: string): (r: Option<Tag>)
    requires s != "" && s[0] == '$'
    ensures r.Some? ==> r.value <= s
  {
    match FindDollar(s[1..])
    case None => None
    case Some(k) =>
      if AllWord(s[1..][..k]) then
        assert s[..k + 2][1..k + 1] == s[1..][..k];
        Some(s[..k + 2])
      else None
  }

  predicate StartsComment(s: string) {
    |s| >= 2 && s[0] == '-' && s[1] == '-'
  }

  function MoveAt(s: string, mode: Mode): (m: Move)
    requires s != ""
    ensures m.Emit? ==> |m.rest| < |s| && |m.text| + |m.rest| <= |s|
    ensures m.Terminator? ==> |m.after| < |s|
  {
    var c := s[0];
    if mode.Plain? && StartsComment(s) then Emit("", DropLine(s), Plain)
    else if c == '$' && mode.Dollar? && mode.tag <= s then Emit(mode.tag, s[|mode.tag|..], Plain)
    else if c == '$' && mode.Plain? && OpeningTag(s).Some? then
      Emit(OpeningTag(s).value, s[|OpeningTag(s).value|..], Dollar(OpeningTag(s).value))
    else if !mode.Dollar? && c == '\'' then Emit([c], s[1..], if mode.Plain? then Quoted else Plain)
    else if mode.Plain? && c == ';' then Terminator(s[1..])
    else Emit([c], s[1..], mode)
  }

  // ----- Splitting

  /** The statement text collected from here to its end: comments are dropped, all else is kept. */
  function Collected(s: string, mode: Mode): (r: string)
    ensures |r| <= |s|
    decreases |s|
  {
    if s == "" then ""
    else
      match MoveAt(s, mode)
      case Terminator(_) => ""
      case Emit(text, rest, next) => text + Collected(rest, next)
  }

  /** The input behind the semicolon that ends the statement, if one does. */
  function AfterStatement(s: string, mode: Mode): (r: Option<string>)
    ensures r.Some? ==> |r.value| < |s|
    decreases |s|
  {
    if s == "" then None
    else
      match MoveAt(s, mode)
      case Terminator(after) => Some(after)
      case Emit(_, rest, next) => AfterStatement(rest, next)
  }

  function Kept(text: string): seq<string> {
    if Trim(text) == "" then [] else [Trim(text)]
  }

  function Statements(s: string): seq<string>
    decreases |s|
  {
    match AfterStatement(s, Plain)
    case None => Kept(Collected(s, Plain))
    case Some(after) => Kept(Collected(s, Plain)) + Statements(after)
  }

  /** The statements still to come when `current` has been collected. */
  function Pending(current: string, s: string, mode: Mode): seq<string> {
    match AfterStatement(s, mode)
    case None => Kept(current + Collected(s, mode))
    case Some(after) => Kept(current + Collected(s, mode)) + Statements(after)
  }

  lemma PendingMove(current: string, s: string, mode: Mode)
    requires s != ""
    ensures
      match MoveAt(s, mode)
      case Emit(text, rest, next) => Pending(current, s, mode) == Pending(current + text, rest, next)
      case Terminator(after) => Pending(current, s, mode) == Kept(current) + Pending("", after, Plain)
  {
    hide MoveAt, Kept;
    match MoveAt(s, mode) {
      case Emit(text, rest, next) =>
        assert current + (text + Collected(rest, next)) == (current + text) + Collected(rest, next);
      case Terminator(after) =>
        assert current + "" == current;
        assert "" + Collected(after, Plain) == Collected(after, Plain);
    }
  }

  function ModeOf(inStr: bool, dollarTag: Option<Tag>): Mode {
    if dollarTag.Some? then Dollar(dollarTag.value) else if inStr then Quoted else Plain
  }

  method LineEnd(input: string, start: nat) returns (i: nat)
    requires start <= |input|
    ensures start <= i <= |input| && input[i..] == DropLine(input[start..])
    ensures start < |input| && input[start] != '\n' ==> start < i
  {
    i := start;
    while i < |input| && input[i] != '\n'
      invariant start <= i <= |input|
      invariant DropLine(input[i..]) == DropLine(input[start..])
    {
      assert input[i..][1..] == input[i + 1..];
      i := i + 1;
    }
  }

  lemma PendingUnfolds(current: string, input: string, i: nat, mode: Mode)
    requires i < |input|
    ensures input[i..] != "" && input[i..][0] == input[i] && input[i..][1..] == input[i + 1..]
    ensures
      match MoveAt(input[i..], mode)
      case Emit(text, rest, next) => Pending(current, input[i..], mode) == Pending(current + text, rest, next)
      case Terminator(after) => Pending(current, input[i..], mode) == Kept(current) + Pending("", after, Plain)
  {
    hide MoveAt, Pending, Kept;
    PendingMove(current, input[i..], mode);
  }

  method SplitSql(input: string) returns (out: seq<string>)
    ensures out == Statements(input)
  {
    hide Statements, Kept, FindDollar, DropLine, OpeningTag, Pending, IsTag;
    out := [];
    var current: string := "";
    var inStr := false;
    var dollarTag: Option<Tag> := None;
    var i := 0;
    PendingWhole(input);
    assert input[0..] == input;
    while i < |input|
      invariant 0 <= i <= |input|
      invariant dollarTag.Some? ==> !inStr
      invariant out + Pending(current, input[i..], ModeOf(inStr, dollarTag)) == Statements(input)
    {
      var c := input[i];
      PendingUnfolds(current, input, i, ModeOf(inStr, dollarTag));
      if !inStr && dollarTag.None? && c == '-' && i + 1 < |input| && input[i + 1] == '-' {
        i := LineEnd(input, i);
        assert current + "" == current;
        continue;
      }
      if !inStr && c == '$' {
        if dollarTag.Some? {
          var close := dollarTag.value;
          if close <= input[i..] {
            TagIsLong(close);
            SliceAt(input, i, i + |close|);
            current := current + close;
            i := i + |close|;
            dollarTag := None;
            continue;
          }
        } else {
          var full := OpeningTag(input[i..]);
          if full.Some? {
            TagIsLong(full.value);
            SliceAt(input, i, i + |full.value|);
            current := current + full.value;
            i := i + |full.value|;
            dollarTag := full;
            continue;
          }
        }
      }
      if dollarTag.None? && c == '\'' {
        inStr := !inStr;
        current := current + [c];
        i := i + 1;
        continue;
      }
      if !inStr && dollarTag.None? && c == ';' {
        Regroup(out, Kept(current), Pending("", input[i + 1..], Plain));
        out := out + Kept(current);
        current := "";
        i := i + 1;
        continue;
      }
      current := current + [c];
      i := i + 1;
    }
    assert input[i..] == "";
    PendingDone(current, ModeOf(inStr, dollarTag));
    out := out + Kept(current);
  }

  lemma TagIsLong(t: Tag)
    ensures |t| >= 2
  {
  }

  lemma Regroup(a: seq<string>, b: seq<string>, c: seq<string>)
    ensures a + (b + c) == (a + b) + c
  {
  }

  lemma PendingWhole(s: string)
    ensures Pending("", s, Plain) == Statements(s)
  {
    hide Trim;
    assert "" + Collected(s, Plain) == Collected(s, Plain);
  }

  lemma PendingDone(current: string, mode: Mode)
    ensures Pending(current, "", mode) == Kept(current)
  {
    hide Trim;
    assert current + "" == current;
  }

  // ----- Counting

  /** The counter's modes: a tag is whatever stands between two dollar signs. */
  datatype CountMode = CPlain | CQuoted | CDollar(tag: string)

  function Tally(b: bool): nat {
    if b then 1 else 0
  }

  /** One move of the counter: what it adds, and how it goes on. */
  datatype CountMove = CountMove(add: nat, rest: string, mode: CountMode, hasText: bool)

  function CountMoveAt(s: string, mode: CountMode, hasText: bool): (m: CountMove)
    requires s != ""
    ensures |m.rest| < |s|
  {
    var c := s[0];
    if mode.CPlain? && StartsComment(s) then CountMove(0, DropLine(s), mode, hasText)
    else if mode.CPlain? && c == '$' && FindDollar(s[1..]).Some? then
      var j := FindDollar(s[1..]).value + 1;
      CountMove(0, s[j + 1..], CDollar(s[..j + 1]), true)
    else if mode.CDollar? then
      if mode.tag <= s && mode.tag != "" then CountMove(0, s[|mode.tag|..], CPlain, hasText)
      else CountMove(0, s[1..], mode, hasText)
    else if c == '\'' then CountMove(0, s[1..], if mode.CPlain? then CQuoted else CPlain, true)
    else if mode.CPlain? && c == ';' then CountMove(Tally(hasText), s[1..], CPlain, false)
    else CountMove(0, s[1..], mode, hasText || !IsWs(c))
  }

  function CountFrom(s: string, mode: CountMode, hasText: bool): nat
    decreases |s|
  {
    if s == "" then Tally(hasText)
    else
      var m := CountMoveAt(s, mode, hasText);
      m.add + CountFrom(m.rest, m.mode, m.hasText)
  }

  method NextDollar(ddl: string, start: nat) returns (j: nat)
    requires start <= |ddl|
    ensures start <= j <= |ddl|
    ensures FindDollar(ddl[start..]) == if j < |ddl| then Some(j - start) else None
  {
    j := start;
    while j < |ddl| && ddl[j] != '$'
      invariant start <= j <= |ddl|
      invariant NoDollarBefore(ddl[start..], j - start)
    {
      j := j + 1;
    }
    FirstDollar(ddl[start..], j - start);
  }

  lemma CountUnfolds(ddl: string, i: nat, mode: CountMode, hasText: bool)
    requires i < |ddl|
    ensures ddl[i..] != "" && ddl[i..][0] == ddl[i] && ddl[i..][1..] == ddl[i + 1..]
    ensures
      var m := CountMoveAt(ddl[i..], mode, hasText);
      CountFrom(ddl[i..], mode, hasText) == m.add + CountFrom(m.rest, m.mode, m.hasText)
  {
    hide CountMoveAt;
  }

  method CountDdlStatements(ddl: string) returns (count: nat)
    ensures count == CountFrom(ddl, CPlain, false)
  {
    hide FindDollar, CountFrom, DropLine, IsWs;
    count := 0;
    var hasText, inStr := false, false;
    var dollarTag: Option<string> := None;
    var i := 0;
    assert ddl[0..] == ddl;
    while i < |ddl|
      invariant 0 <= i <= |ddl|
      invariant dollarTag.Some? ==> !inStr && dollarTag.value != ""
      invariant count + CountFrom(ddl[i..], CountModeOf(inStr, dollarTag), hasText) == CountFrom(ddl, CPlain, false)
    {
      var c := ddl[i];
      CountUnfolds(ddl, i, CountModeOf(inStr, dollarTag), hasText);
      if !inStr && dollarTag.None? && c == '-' && i + 1 < |ddl| && ddl[i + 1] == '-' {
        i := LineEnd(ddl, i);
        continue;
      }
      if !inStr && dollarTag.None? && c == '$' {
        var j := NextDollar(ddl, i + 1);
        if j < |ddl| {
          SliceAt(ddl, i, j + 1);
          dollarTag := Some(ddl[i..j + 1]);
          hasText := true;
          i := j + 1;
          continue;
        }
      }
      if dollarTag.Some? {
        if dollarTag.value <= ddl[i..] {
          SliceAt(ddl, i, i + |dollarTag.value|);
          i := i + |dollarTag.value|;
          dollarTag := None;
          continue;
        }
        i := i + 1;
        continue;
      }
      if c == '\'' {
        inStr := !inStr;
        hasText := true;
        i := i + 1;
        continue;
      }
      if !inStr && c == ';' {
        if hasText {
          count := count + 1;
        }
        hasText := false;
        i := i + 1;
        continue;
      }
      if !IsWs(c) {
        hasText := true;
      }
      i := i + 1;
    }
    CountDone(ddl[i..], CountModeOf(inStr, dollarTag), hasText);
    if hasText {
      count := count + 1;
    }
  }

  lemma SliceAt(s: string, i: nat, j: nat)
    requires i <= j <= |s|
    ensures s[i..][..j - i] == s[i..j] && s[i..][j - i..] == s[j..]
  {
  }

  lemma CountDone(s: string, mode: CountMode, hasText: bool)
    requires s == ""
    ensures CountFrom(s, mode, hasText) == Tally(hasText)
  {
  }

  function CountModeOf(inStr: bool, dollarTag: Option<string>): CountMode {
    if dollarTag.Some? then CDollar(dollarTag.value) else if inStr then CQuoted else CPlain
  }

  /** No dollar sign among the first `k` characters. */
  predicate NoDollarBefore(s: string, k: nat) {
    k <= |s| && forall j :: 0 <= j < k ==> s[j] != '$'
  }

  lemma {:induction false} FirstDollar(s: string, k: nat)
    requires NoDollarBefore(s, k) && (k == |s| || s[k] == '$')
    ensures FindDollar(s) == if k == |s| then None else Some(k)
    decreases k
  {
    if k > 0 {
      FirstDollar(s[1..], k - 1);
    }
  }
}
