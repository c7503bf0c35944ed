/** What the pull reader does on every JSON text: it stops exactly where values end, and it finds
  * exactly the sub-value a key path names. */
module JsonReaderProofs {
  import opened Wrappers
  import opened JsonText
  import opened JsonReader

  // ----- Reading one piece of text

  lemma {:induction false} SkipsBlanks(text: Bytes, i: nat, ws: Bytes)
    requires AllWs(ws) && Holds(text, i, ws)
    requires i + |ws| < |text| ==> !IsWs(text[i + |ws|])
    ensures SkipWs(text, i) == i + |ws|
    decreases |ws|
  {
    if ws == [] {
    } else {
      assert ws == ws[..1] + ws[1..];
      HoldsConcat(text, i, ws[..1], ws[1..]);
      HoldsByte(text, i, ws[0]);
      assert ws[..1] == [ws[0]];
      SkipsBlanks(text, i + 1, ws[1..]);
    }
  }

  lemma {:induction false} FindsClosingQuote(text: Bytes, i: nat, raw: Bytes)
    requires WellEscaped(raw) && Holds(text, i, raw + [QUOTE])
    ensures ClosingQuote(text, i) == if HasUnicodeEscape(raw) then Malformed else Ok(i + |raw|)
    decreases |raw|
  {
    var whole := raw + [QUOTE];
    assert text[i] == whole[0];
    if raw == [] {
    } else if raw[0] == BACKSLASH {
      assert text[i + 1] == whole[1];
      assert raw == raw[..2] + raw[2..];
      assert whole == raw[..2] + (raw[2..] + [QUOTE]);
      HoldsConcat(text, i, raw[..2], raw[2..] + [QUOTE]);
      FindsClosingQuote(text, i + 2, raw[2..]);
    } else {
      assert whole == raw[..1] + (raw[1..] + [QUOTE]);
      HoldsConcat(text, i, raw[..1], raw[1..] + [QUOTE]);
      FindsClosingQuote(text, i + 1, raw[1..]);
    }
  }

  lemma ReadsString(text: Bytes, at: nat, raw: Bytes)
    requires WellEscaped(raw) && Holds(text, at, PrintString(raw))
    ensures AsStr(text, at) == if HasUnicodeEscape(raw) then Malformed else Ok(raw)
  {
    assert PrintString(raw) == [QUOTE] + (raw + [QUOTE]);
    HoldsConcat(text, at, [QUOTE], raw + [QUOTE]);
    HoldsByte(text, at, QUOTE);
    HoldsConcat(text, at + 1, raw, [QUOTE]);
    FindsClosingQuote(text, at + 1, raw);
  }

  predicate AllNumberBytes(s: Bytes) {
    forall k :: 0 <= k < |s| ==> IsNumberByte(s[k])
  }

  lemma {:induction false} RunsOverNumber(text: Bytes, i: nat, s: Bytes)
    requires AllNumberBytes(s) && Holds(text, i, s) && Delimited(text, i + |s|)
    ensures NumberRun(text, i) == i + |s|
    decreases |s|
  {
    if s == [] {
    } else {
      assert s == s[..1] + s[1..];
      HoldsConcat(text, i, s[..1], s[1..]);
      assert text[i] == s[0];
      RunsOverNumber(text, i + 1, s[1..]);
    }
  }

  lemma NumeralBytes(n: Numeral)
    ensures AllNumberBytes(PrintNumeral(n))
    ensures |PrintNumeral(n)| > (if n.negative then 1 else 0)
    ensures PrintNumeral(n)[0] == MINUS <==> n.negative
    ensures IsDigit(PrintNumeral(n)[0]) || PrintNumeral(n)[0] == MINUS
  {
    assert forall k :: 0 <= k < |n.frac| ==> k == 0 || n.frac[k] == n.frac[1..][k - 1];
    assert forall k :: 0 <= k < |n.exp| ==>
        k == 0 || n.exp[k] == n.exp[1..][k - 1];
    assert forall k :: 2 <= k < |n.exp| ==> n.exp[k] == n.exp[2..][k - 2];
    assert AllNumberBytes(n.frac);
    assert AllNumberBytes(n.exp);
  }

  lemma ReadsNumber(text: Bytes, at: nat, n: Numeral)
    requires Holds(text, at, PrintNumeral(n)) && Delimited(text, at + |PrintNumeral(n)|)
    ensures SkipNumber(text, at) == Ok(at + |PrintNumeral(n)|)
  {
    NumeralBytes(n);
    var s := PrintNumeral(n);
    assert text[at] == s[0];
    if n.negative {
      assert s == [MINUS] + s[1..];
      HoldsConcat(text, at, [MINUS], s[1..]);
      RunsOverNumber(text, at + 1, s[1..]);
    } else {
      RunsOverNumber(text, at, s);
    }
  }

  // ----- Passing over balanced text inside a container

  predicate BracketPair(open: byte, close: byte) {
    (open == LBRACE && close == RBRACE) || (open == LBRACKET && close == RBRACKET)
  }

  predicate Uneventful(s: Bytes) {
    forall k :: 0 <= k < |s| ==>
      s[k] != QUOTE && s[k] != LBRACE && s[k] != RBRACE && s[k] != LBRACKET && s[k] != RBRACKET
  }

  lemma {:induction false} PassesPlain(text: Bytes, i: nat, s: Bytes, depth: int, open: byte, close: byte)
    requires BracketPair(open, close) && Uneventful(s) && Holds(text, i, s)
    ensures ContainerEnd(text, i, depth, false, open, close) == ContainerEnd(text, i + |s|, depth, false, open, close)
    decreases |s|
  {
    if s == [] {
    } else {
      assert s == s[..1] + s[1..];
      HoldsConcat(text, i, s[..1], s[1..]);
      assert text[i] == s[0];
      PassesPlain(text, i + 1, s[1..], depth, open, close);
    }
  }

  lemma {:induction false} PassesBody(text: Bytes, i: nat, raw: Bytes, depth: int, open: byte, close: byte)
    requires WellEscaped(raw) && Holds(text, i, raw + [QUOTE])
    ensures ContainerEnd(text, i, depth, true, open, close)
         == ContainerEnd(text, i + |raw| + 1, depth, false, open, close)
    decreases |raw|
  {
    var whole := raw + [QUOTE];
    assert text[i] == whole[0];
    if raw == [] {
    } else if raw[0] == BACKSLASH {
      assert whole == raw[..2] + (raw[2..] + [QUOTE]);
      HoldsConcat(text, i, raw[..2], raw[2..] + [QUOTE]);
      PassesBody(text, i + 2, raw[2..], depth, open, close);
    } else {
      assert whole == raw[..1] + (raw[1..] + [QUOTE]);
      HoldsConcat(text, i, raw[..1], raw[1..] + [QUOTE]);
      PassesBody(text, i + 1, raw[1..], depth, open, close);
    }
  }

  lemma PassesString(text: Bytes, i: nat, raw: Bytes, depth: int, open: byte, close: byte)
    requires BracketPair(open, close) && WellEscaped(raw) && Holds(text, i, PrintString(raw))
    ensures ContainerEnd(text, i, depth, false, open, close)
         == ContainerEnd(text, i + |PrintString(raw)|, depth, false, open, close)
  {
    assert PrintString(raw) == [QUOTE] + (raw + [QUOTE]);
    HoldsConcat(text, i, [QUOTE], raw + [QUOTE]);
    HoldsByte(text, i, QUOTE);
    PassesBody(text, i + 1, raw, depth, open, close);
  }

  /** Where a scan that has just passed the bracket `b` stands. */
  function AfterOpen(depth: int, b: byte, open: byte): int {
    if b == open then depth + 1 else depth
  }

  lemma PassesOpen(text: Bytes, i: nat, b: byte, depth: int, open: byte, close: byte)
    requires BracketPair(open, close) && (b == LBRACE || b == LBRACKET) && Holds(text, i, [b])
    ensures ContainerEnd(text, i, depth, false, open, close)
         == ContainerEnd(text, i + 1, AfterOpen(depth, b, open), false, open, close)
  {
    HoldsByte(text, i, b);
  }

  lemma PassesClose(text: Bytes, i: nat, b: byte, depth: int, open: byte, close: byte)
    requires BracketPair(open, close) && (b == LBRACE || b == LBRACKET)
    requires Holds(text, i, [if b == LBRACE then RBRACE else RBRACKET])
    requires depth >= 1
    ensures ContainerEnd(text, i, AfterOpen(depth, b, open), false, open, close)
         == ContainerEnd(text, i + 1, depth, false, open, close)
  {
    HoldsByte(text, i, if b == LBRACE then RBRACE else RBRACKET);
  }

  /** Counting one bracket kind only, a scan inside a container passes a whole value unchanged. */
  lemma {:induction false} PassesDoc(text: Bytes, i: nat, d: Doc, depth: int, open: byte, close: byte)
    requires BracketPair(open, close) && depth >= 1 && Holds(text, i, Print(d))
    ensures ContainerEnd(text, i, depth, false, open, close)
         == ContainerEnd(text, i + |Print(d)|, depth, false, open, close)
    decreases d
  {
    hide ContainerEnd, PrintItems, PrintMembers, PrintNumeral, WellEscaped, AllWs, Uneventful;
    match d {
      case DNull => PassesScalar(text, i, d, depth, open, close);
      case DBool(b) => PassesScalar(text, i, d, depth, open, close);
      case DNumber(num) => PassesScalar(text, i, d, depth, open, close);
      case DString(raw) => PassesString(text, i, raw, depth, open, close);
      case DEmptyArray(gap) => PassesEmpty(text, i, LBRACKET, gap, depth, open, close);
      case DEmptyObject(gap) => PassesEmpty(text, i, LBRACE, gap, depth, open, close);
      case DArray(items) =>
        HoldsConcat(text, i, [LBRACKET], PrintItems(items));
        PassesOpen(text, i, LBRACKET, depth, open, close);
        PassesItems(text, i + 1, items, depth, open, close);
      case DObject(members) =>
        HoldsConcat(text, i, [LBRACE], PrintMembers(members));
        PassesOpen(text, i, LBRACE, depth, open, close);
        PassesMembers(text, i + 1, members, depth, open, close);
    }
  }

  lemma PassesScalar(text: Bytes, i: nat, d: Doc, depth: int, open: byte, close: byte)
    requires (d.DNull? || d.DBool? || d.DNumber?) && BracketPair(open, close) && Holds(text, i, Print(d))
    ensures ContainerEnd(text, i, depth, false, open, close)
         == ContainerEnd(text, i + |Print(d)|, depth, false, open, close)
  {
    hide ContainerEnd;
    if d.DNumber? {
      NumeralBytes(d.num);
    }
    PassesPlain(text, i, Print(d), depth, open, close);
  }

  lemma PassesEmpty(text: Bytes, i: nat, b: byte, gap: Bytes, depth: int, open: byte, close: byte)
    requires BracketPair(open, close) && depth >= 1 && AllWs(gap) && (b == LBRACE || b == LBRACKET)
    requires Holds(text, i, [b] + gap + [if b == LBRACE then RBRACE else RBRACKET])
    ensures ContainerEnd(text, i, depth, false, open, close)
         == ContainerEnd(text, i + |gap| + 2, depth, false, open, close)
  {
    hide ContainerEnd;
    var end: byte := if b == LBRACE then RBRACE else RBRACKET;
    HoldsConcat(text, i, [b] + gap, [end]);
    HoldsConcat(text, i, [b], gap);
    PassesOpen(text, i, b, depth, open, close);
    PassesPlain(text, i + 1, gap, AfterOpen(depth, b, open), open, close);
    PassesClose(text, i + 1 + |gap|, b, depth, open, close);
  }

  lemma {:induction false} PassesItems(text: Bytes, i: nat, items: Items, depth: int, open: byte, close: byte)
    requires BracketPair(open, close) && depth >= 1 && Holds(text, i, PrintItems(items))
    ensures ContainerEnd(text, i, AfterOpen(depth, LBRACKET, open), false, open, close)
         == ContainerEnd(text, i + |PrintItems(items)|, depth, false, open, close)
    decreases items
  {
    hide ContainerEnd, AllWs, Uneventful, Holds, Print, PrintItems, AfterOpen;
    AfterOpenPositive(depth, LBRACKET, open);
    var inner := AfterOpen(depth, LBRACKET, open);
    ItemPieces(text, i, items);
    ItemLength(items);
    var docAt := i + |items.before|;
    var afterAt := docAt + |Print(items.doc)|;
    var tailAt := afterAt + |items.after|;
    PassesSpace(text, i, items.before, inner, open, close);
    PassesDoc(text, docAt, items.doc, inner, open, close);
    PassesSpace(text, afterAt, items.after, inner, open, close);
    if items.LastItem? {
      PassesClose(text, tailAt, LBRACKET, depth, open, close);
    } else {
      HoldsConcat(text, tailAt, [COMMA], PrintItems(items.rest));
      PassesComma(text, tailAt, inner, open, close);
      PassesItems(text, tailAt + 1, items.rest, depth, open, close);
    }
  }

  lemma AfterOpenPositive(depth: int, b: byte, open: byte)
    requires depth >= 1
    ensures AfterOpen(depth, b, open) >= 1
  {
  }

  lemma PassesSpace(text: Bytes, i: nat, s: Space, depth: int, open: byte, close: byte)
    requires BracketPair(open, close) && Holds(text, i, s)
    ensures ContainerEnd(text, i, depth, false, open, close) == ContainerEnd(text, i + |s|, depth, false, open, close)
  {
    hide ContainerEnd, Holds;
    PassesPlain(text, i, s, depth, open, close);
  }

  lemma PassesComma(text: Bytes, i: nat, depth: int, open: byte, close: byte)
    requires BracketPair(open, close) && Holds(text, i, [COMMA])
    ensures ContainerEnd(text, i, depth, false, open, close) == ContainerEnd(text, i + 1, depth, false, open, close)
  {
    hide ContainerEnd, Holds;
    PassesPlain(text, i, [COMMA], depth, open, close);
  }

  lemma ItemLength(items: Items)
    ensures |PrintItems(items)| == |items.before| + |Print(items.doc)| + |items.after| + |ItemTail(items)|
    ensures items.LastItem? ==> ItemTail(items) == [RBRACKET]
    ensures items.Item? ==> ItemTail(items) == [COMMA] + PrintItems(items.rest)
  {
    hide Print, AllWs;
  }

  lemma MemberLength(m: Members)
    ensures |PrintMembers(m)| == |PrintKey(m)| + |Print(m.doc)| + |m.after| + |MemberTail(m)|
    ensures m.LastMember? ==> MemberTail(m) == [RBRACE]
    ensures m.Member? ==> MemberTail(m) == [COMMA] + PrintMembers(m.rest)
  {
    hide Print, PrintKey, AllWs;
  }

  function ItemTail(items: Items): Bytes {
    match items
    case LastItem(_, _, _) => [RBRACKET]
    case Item(_, _, _, rest) => [COMMA] + PrintItems(rest)
  }

  lemma ItemPieces(text: Bytes, i: int, items: Items)
    requires Holds(text, i, PrintItems(items))
    ensures Holds(text, i, items.before)
    ensures Holds(text, i + |items.before|, Print(items.doc))
    ensures Holds(text, i + |items.before| + |Print(items.doc)|, items.after)
    ensures Holds(text, i + |items.before| + |Print(items.doc)| + |items.after|, ItemTail(items))
  {
    HoldsConcat(text, i, items.before + Print(items.doc) + items.after, ItemTail(items));
    HoldsConcat(text, i, items.before + Print(items.doc), items.after);
    HoldsConcat(text, i, items.before, Print(items.doc));
  }

  lemma ItemDelimited(text: Bytes, i: int, items: Items)
    requires Holds(text, i, PrintItems(items))
    ensures Located(text, i + |items.before|, items.doc)
  {
    ItemPieces(text, i, items);
    var end := i + |items.before| + |Print(items.doc)|;
    if items.after != [] {
      assert text[end] == items.after[0];
    } else {
      assert text[end] == ItemTail(items)[0];
    }
  }

  function MemberTail(members: Members): Bytes {
    match members
    case LastMember(_, _, _, _, _, _) => [RBRACE]
    case Member(_, _, _, _, _, _, rest) => [COMMA] + PrintMembers(rest)
  }

  lemma MemberPieces(text: Bytes, i: int, members: Members)
    requires Holds(text, i, PrintMembers(members))
    ensures Holds(text, i, PrintKey(members))
    ensures Holds(text, i + |PrintKey(members)|, Print(members.doc))
    ensures Holds(text, i + |PrintKey(members)| + |Print(members.doc)|, members.after)
    ensures Holds(text, i + |PrintKey(members)| + |Print(members.doc)| + |members.after|, MemberTail(members))
  {
    HoldsConcat(text, i, PrintKey(members) + Print(members.doc) + members.after, MemberTail(members));
    HoldsConcat(text, i, PrintKey(members) + Print(members.doc), members.after);
    HoldsConcat(text, i, PrintKey(members), Print(members.doc));
  }

  lemma KeyPieces(text: Bytes, i: int, m: Members)
    requires Holds(text, i, PrintKey(m))
    ensures Holds(text, i, m.beforeKey)
    ensures Holds(text, i + |m.beforeKey|, PrintString(m.key))
    ensures Holds(text, i + |m.beforeKey| + |m.key| + 2, m.afterKey)
    ensures Holds(text, i + |m.beforeKey| + |m.key| + 2 + |m.afterKey|, [COLON])
    ensures Holds(text, i + |m.beforeKey| + |m.key| + 3 + |m.afterKey|, m.before)
    ensures |PrintKey(m)| == |m.beforeKey| + |m.key| + 3 + |m.afterKey| + |m.before|
  {
    var k := PrintString(m.key);
    HoldsConcat(text, i, m.beforeKey + k + m.afterKey + [COLON], m.before);
    HoldsConcat(text, i, m.beforeKey + k + m.afterKey, [COLON]);
    HoldsConcat(text, i, m.beforeKey + k, m.afterKey);
    HoldsConcat(text, i, m.beforeKey, k);
  }

  lemma {:induction false} PassesMembers(text: Bytes, i: nat, members: Members, depth: int, open: byte, close: byte)
    requires BracketPair(open, close) && depth >= 1 && Holds(text, i, PrintMembers(members))
    ensures ContainerEnd(text, i, AfterOpen(depth, LBRACE, open), false, open, close)
         == ContainerEnd(text, i + |PrintMembers(members)|, depth, false, open, close)
    decreases members
  {
    hide ContainerEnd, AllWs, Uneventful, Holds, Print, PrintMembers, PrintKey, AfterOpen;
    AfterOpenPositive(depth, LBRACE, open);
    var inner := AfterOpen(depth, LBRACE, open);
    MemberPieces(text, i, members);
    MemberLength(members);
    PassesKey(text, i, members, inner, open, close);
    var docAt := i + |PrintKey(members)|;
    var afterAt := docAt + |Print(members.doc)|;
    var tailAt := afterAt + |members.after|;
    PassesDoc(text, docAt, members.doc, inner, open, close);
    PassesSpace(text, afterAt, members.after, inner, open, close);
    if members.LastMember? {
      PassesClose(text, tailAt, LBRACE, depth, open, close);
    } else {
      HoldsConcat(text, tailAt, [COMMA], PrintMembers(members.rest));
      PassesComma(text, tailAt, inner, open, close);
      PassesMembers(text, tailAt + 1, members.rest, depth, open, close);
    }
  }

  lemma PassesKey(text: Bytes, i: nat, m: Members, depth: int, open: byte, close: byte)
    requires BracketPair(open, close) && Holds(text, i, PrintKey(m))
    ensures ContainerEnd(text, i, depth, false, open, close)
         == ContainerEnd(text, i + |PrintKey(m)|, depth, false, open, close)
  {
    hide ContainerEnd;
    KeyPieces(text, i, m);
    var keyAt := i + |m.beforeKey|;
    var gapAt := keyAt + |m.key| + 2;
    PassesPlain(text, i, m.beforeKey, depth, open, close);
    PassesString(text, keyAt, m.key, depth, open, close);
    PassesPlain(text, gapAt, m.afterKey, depth, open, close);
    PassesPlain(text, gapAt + |m.afterKey|, [COLON], depth, open, close);
    PassesPlain(text, gapAt + |m.afterKey| + 1, m.before, depth, open, close);
  }

  // ----- Skipping one value

  /** The reader takes a value whole unless it is a string with a `\u` escape. */
  predicate Skippable(d: Doc) {
    d.DString? ==> !HasUnicodeEscape(d.raw)
  }

  /** On every JSON value, in every layout and followed by a delimiter or the end, the reader stops
    * exactly at the end of the value; the one exception is a string with a `\u` escape. */
  lemma SkipsExactly(text: Bytes, at: nat, d: Doc)
    requires Located(text, at, d)
    ensures SkipValue(text, at) == if Skippable(d) then Ok(at + |Print(d)|) else Malformed
  {
    hide ContainerEnd;
    assert Print(d) != [] ==> text[at] == Print(d)[0];
    match d {
      case DNull => SkipsKeyword(text, at, NULL);
      case DBool(b) => SkipsKeyword(text, at, PrintBool(b));
      case DNumber(num) =>
        NumeralBytes(num);
        ReadsNumber(text, at, num);
      case DString(raw) => ReadsString(text, at, raw);
      case DEmptyArray(gap) => SkipsContainer(text, at, d);
      case DEmptyObject(gap) => SkipsContainer(text, at, d);
      case DArray(items) => SkipsContainer(text, at, d);
      case DObject(members) => SkipsContainer(text, at, d);
    }
  }

  lemma SkipsContainer(text: Bytes, at: nat, d: Doc)
    requires (IsArrayDoc(d) || IsObjectDoc(d)) && Holds(text, at, Print(d))
    ensures SkipValue(text, at) == Ok(at + |Print(d)|)
  {
    hide ContainerEnd, AsStr, SkipKeyword, SkipNumber;
    assert text[at] == Print(d)[0];
    match d {
      case DEmptyArray(gap) => SkipsEmpty(text, at, LBRACKET, gap);
      case DEmptyObject(gap) => SkipsEmpty(text, at, LBRACE, gap);
      case DArray(items) =>
        HoldsConcat(text, at, [LBRACKET], PrintItems(items));
        Opens(text, at, LBRACKET, RBRACKET);
        SkipsItems(text, at + 1, items);
      case DObject(members) =>
        HoldsConcat(text, at, [LBRACE], PrintMembers(members));
        Opens(text, at, LBRACE, RBRACE);
        SkipsMembers(text, at + 1, members);
    }
  }

  lemma SkipsKeyword(text: Bytes, at: nat, word: Bytes)
    requires word in [TRUE, FALSE, NULL] && Holds(text, at, word)
    ensures SkipKeyword(text, at) == Ok(at + |word|)
  {
    assert text[at] == word[0];
    assert word == TRUE || word == FALSE || word == NULL;
    assert StartsAt(text, at, TRUE) ==> text[at] == TRUE[0];
    assert StartsAt(text, at, FALSE) ==> text[at] == FALSE[0];
  }

  lemma Opens(text: Bytes, at: nat, open: byte, close: byte)
    requires BracketPair(open, close) && Holds(text, at, [open])
    ensures ContainerEnd(text, at, 0, false, open, close) == ContainerEnd(text, at + 1, 1, false, open, close)
  {
    HoldsByte(text, at, open);
  }

  lemma ClosesAt(text: Bytes, i: nat, open: byte, close: byte)
    requires BracketPair(open, close) && Holds(text, i, [close])
    ensures ContainerEnd(text, i, 1, false, open, close) == Ok(i + 1)
  {
    HoldsByte(text, i, close);
  }

  lemma SkipsEmpty(text: Bytes, at: nat, b: byte, gap: Bytes)
    requires AllWs(gap) && (b == LBRACE || b == LBRACKET)
    requires Holds(text, at, [b] + gap + [if b == LBRACE then RBRACE else RBRACKET])
    ensures ContainerEnd(text, at, 0, false, b, if b == LBRACE then RBRACE else RBRACKET) == Ok(at + |gap| + 2)
  {
    var end: byte := if b == LBRACE then RBRACE else RBRACKET;
    HoldsConcat(text, at, [b] + gap, [end]);
    HoldsConcat(text, at, [b], gap);
    Opens(text, at, b, end);
    PassesPlain(text, at + 1, gap, 1, b, end);
    ClosesAt(text, at + 1 + |gap|, b, end);
  }

  lemma BlanksUneventful(s: Space)
    ensures Uneventful(s)
  {
  }

  lemma {:induction false} SkipsItems(text: Bytes, i: nat, items: Items)
    requires Holds(text, i, PrintItems(items))
    ensures ContainerEnd(text, i, 1, false, LBRACKET, RBRACKET) == Ok(i + |PrintItems(items)|)
    decreases items
  {
    hide ContainerEnd, AllWs, WellEscaped, Print, Holds, Uneventful;
    ItemPieces(text, i, items);
    var docAt := i + |items.before|;
    var afterAt := docAt + |Print(items.doc)|;
    var tailAt := afterAt + |items.after|;
    BlanksUneventful(items.before);
    BlanksUneventful(items.after);
    PassesPlain(text, i, items.before, 1, LBRACKET, RBRACKET);
    PassesDoc(text, docAt, items.doc, 1, LBRACKET, RBRACKET);
    PassesPlain(text, afterAt, items.after, 1, LBRACKET, RBRACKET);
    if items.LastItem? {
      ClosesAt(text, tailAt, LBRACKET, RBRACKET);
    } else {
      HoldsConcat(text, tailAt, [COMMA], PrintItems(items.rest));
      PassesPlain(text, tailAt, [COMMA], 1, LBRACKET, RBRACKET);
      SkipsItems(text, tailAt + 1, items.rest);
    }
  }

  lemma {:induction false} SkipsMembers(text: Bytes, i: nat, members: Members)
    requires Holds(text, i, PrintMembers(members))
    ensures ContainerEnd(text, i, 1, false, LBRACE, RBRACE) == Ok(i + |PrintMembers(members)|)
    decreases members
  {
    hide ContainerEnd, AllWs, WellEscaped, Print, Holds, Uneventful;
    MemberPieces(text, i, members);
    PassesKey(text, i, members, 1, LBRACE, RBRACE);
    var docAt := i + |PrintKey(members)|;
    var afterAt := docAt + |Print(members.doc)|;
    var tailAt := afterAt + |members.after|;
    PassesDoc(text, docAt, members.doc, 1, LBRACE, RBRACE);
    BlanksUneventful(members.after);
    PassesPlain(text, afterAt, members.after, 1, LBRACE, RBRACE);
    if members.LastMember? {
      ClosesAt(text, tailAt, LBRACE, RBRACE);
    } else {
      HoldsConcat(text, tailAt, [COMMA], PrintMembers(members.rest));
      PassesPlain(text, tailAt, [COMMA], 1, LBRACE, RBRACE);
      SkipsMembers(text, tailAt + 1, members.rest);
    }
  }

  // ----- Finding one key in an object

  /** The first member with this key: where its value starts in `PrintMembers`, and the value. */
  function MemberAt(members: Members, key: Bytes): Option<(nat, Doc)>
    decreases members
  {
    if members.key == key then Some((|PrintKey(members)|, members.doc))
    else
      match members
      case LastMember(_, _, _, _, _, _) => None
      case Member(_, _, _, _, _, _, rest) =>
        match MemberAt(rest, key)
        case None => None
        case Some((off, d)) =>
          Some((|PrintKey(members)| + |Print(members.doc)| + |members.after| + 1 + off, d))
  }

  /** A search for `key` meets no `\u` escape: none in a key it reads, none in a string it skips. */
  predicate MembersReadable(members: Members, key: Bytes)
    decreases members
  {
    !HasUnicodeEscape(members.key) &&
    (members.key == key ||
     (Skippable(members.doc) && (members.Member? ==> MembersReadable(members.rest, key))))
  }

  lemma DocDelimited(text: Bytes, i: int, members: Members)
    requires Holds(text, i, PrintMembers(members))
    ensures Located(text, i + |PrintKey(members)|, members.doc)
  {
    MemberPieces(text, i, members);
    var end := i + |PrintKey(members)| + |Print(members.doc)|;
    var tail := MemberTail(members);
    if members.after != [] {
      assert text[end] == members.after[0];
    } else {
      assert text[end] == tail[0];
    }
  }

  /** The blanks, colon and comma around a member, as the reader sees them. */
  lemma MemberStops(text: Bytes, i: nat, m: Members)
    requires Holds(text, i, PrintMembers(m))
    ensures
      var gapAt := i + |m.beforeKey| + |m.key| + 2;
      var docAt := i + |PrintKey(m)|;
      var end := docAt + |Print(m.doc)|;
      && SkipWs(text, gapAt) == gapAt + |m.afterKey|
      && ByteAt(text, gapAt + |m.afterKey|, COLON)
      && SkipWs(text, gapAt + |m.afterKey| + 1) == docAt
      && SkipWs(text, end) == end + |m.after|
      && ByteAt(text, end + |m.after|, COMMA) == m.Member?
      && ByteAt(text, end + |m.after|, RBRACE) == m.LastMember?
  {
    hide AllWs, Holds, SkipWs, Print, PrintMembers, PrintKey, MemberTail, WellEscaped;
    MemberPieces(text, i, m);
    KeyPieces(text, i, m);
    PrintNonEmpty(m.doc);
    var gapAt := i + |m.beforeKey| + |m.key| + 2;
    var docAt := i + |PrintKey(m)|;
    var end := docAt + |Print(m.doc)|;
    HoldsFirst(text, gapAt + |m.afterKey|, [COLON]);
    SkipsBlanks(text, gapAt, m.afterKey);
    HoldsFirst(text, docAt, Print(m.doc));
    SkipsBlanks(text, gapAt + |m.afterKey| + 1, m.before);
    TailByte(text, end + |m.after|, m);
    SkipsBlanks(text, end, m.after);
  }

  lemma TailByte(text: Bytes, i: nat, m: Members)
    requires Holds(text, i, MemberTail(m))
    ensures i < |text| && text[i] == MemberTail(m)[0] && text[i] == (if m.Member? then COMMA else RBRACE)
    ensures ByteAt(text, i, COMMA) == m.Member? && ByteAt(text, i, RBRACE) == m.LastMember?
  {
    hide PrintMembers, Holds;
    HoldsFirst(text, i, MemberTail(m));
  }

  lemma ReadsKey(text: Bytes, i: nat, m: Members)
    requires Holds(text, i, PrintMembers(m))
    ensures AsStr(text, i + |m.beforeKey|) == if HasUnicodeEscape(m.key) then Malformed else Ok(m.key)
  {
    hide AllWs, Holds, AsStr, Print, PrintMembers, PrintKey, PrintString, HasUnicodeEscape, WellEscaped;
    MemberPieces(text, i, m);
    KeyPieces(text, i, m);
    ReadsString(text, i + |m.beforeKey|, m.key);
  }

  lemma SkipsMemberValue(text: Bytes, i: nat, m: Members)
    requires Holds(text, i, PrintMembers(m))
    ensures SkipValue(text, i + |PrintKey(m)|) ==
            if Skippable(m.doc) then Ok(i + |PrintKey(m)| + |Print(m.doc)|) else Malformed
  {
    hide AllWs, Holds, Located, SkipValue, Print, PrintMembers, PrintKey, WellEscaped, Skippable,
      IsIntegerPart, IsFraction, IsExponent;
    DocDelimited(text, i, m);
    SkipsExactly(text, i + |PrintKey(m)|, m.doc);
  }

  lemma ReadsMember(text: Bytes, i: nat, m: Members, key: Bytes)
    requires Holds(text, i, PrintMembers(m))
    ensures ReadMember(text, i + |m.beforeKey|, key) ==
        if HasUnicodeEscape(m.key) then Broken
        else if m.key == key then Hit(i + |PrintKey(m)|)
        else if !Skippable(m.doc) then Broken
        else if m.LastMember? then Absent
        else Next(SkipWs(text, i + |PrintKey(m)| + |Print(m.doc)| + |m.after| + 1))
  {
    hide AllWs, Holds, Located, SkipValue, AsStr, SkipWs, Print, PrintItems, PrintMembers, PrintKey, PrintString,
      HasUnicodeEscape, WellEscaped, Skippable, IsIntegerPart, IsFraction, IsExponent;
    ReadsKey(text, i, m);
    MemberStops(text, i, m);
    SkipsMemberValue(text, i, m);
  }

  lemma SkipsToNextKey(text: Bytes, i: nat, m: Members)
    requires Holds(text, i, PrintMembers(m)) && m.Member?
    ensures
      var next := i + |PrintKey(m)| + |Print(m.doc)| + |m.after| + 1;
      Holds(text, next, PrintMembers(m.rest)) && SkipWs(text, next) == next + |m.rest.beforeKey|
  {
    hide AllWs, Holds, SkipWs, Print, PrintMembers, PrintKey, WellEscaped;
    var next := i + |PrintKey(m)| + |Print(m.doc)| + |m.after| + 1;
    MemberPieces(text, i, m);
    HoldsConcat(text, next - 1, [COMMA], PrintMembers(m.rest));
    MemberPieces(text, next, m.rest);
    KeyPieces(text, next, m.rest);
    HoldsFirst(text, next + |m.rest.beforeKey|, PrintString(m.rest.key));
    SkipsBlanks(text, next, m.rest.beforeKey);
  }

  lemma {:induction false} FindsMember(text: Bytes, i: nat, members: Members, key: Bytes)
    requires Holds(text, i, PrintMembers(members))
    ensures FindKeyFrom(text, i + |members.beforeKey|, key) ==
            if !MembersReadable(members, key) then Malformed
            else if MemberAt(members, key).None? then Ok(None)
            else Ok(Some(i + MemberAt(members, key).value.0))
    ensures MemberAt(members, key).Some? ==>
              Located(text, i + MemberAt(members, key).value.0, MemberAt(members, key).value.1)
    decreases members
  {
    hide AllWs, Holds, Located, ReadMember, SkipWs, Print, PrintMembers, PrintKey, HasUnicodeEscape, WellEscaped,
      Skippable, IsIntegerPart, IsFraction, IsExponent;
    ReadsMember(text, i, members, key);
    DocDelimited(text, i, members);
    if members.Member? {
      var next := i + |PrintKey(members)| + |Print(members.doc)| + |members.after| + 1;
      SkipsToNextKey(text, i, members);
      FindsMember(text, next, members.rest, key);
    }
  }

  lemma HoldsFirst(text: Bytes, i: int, s: Bytes)
    requires Holds(text, i, s) && s != []
    ensures i < |text| && text[i] == s[0]
  {
  }

  // ----- Following a path

  /** The value a path of keys names: its offset in `Print(d)`, and the value. */
  function PathAt(d: Doc, path: seq<Bytes>): Option<(nat, Doc)>
    decreases |path|
  {
    if path == [] then Some((0, d))
    else if !d.DObject? then None
    else
      match MemberAt(d.members, path[0])
      case None => None
      case Some((off, v)) =>
        match PathAt(v, path[1..])
        case None => None
        case Some((deeper, w)) => Some((1 + off + deeper, w))
  }

  /** Following the path meets no `\u` escape. */
  predicate PathReadable(d: Doc, path: seq<Bytes>)
    decreases |path|
  {
    if path == [] then Skippable(d)
    else d.DObject? ==>
      MembersReadable(d.members, path[0]) &&
      (MemberAt(d.members, path[0]).Some? ==> PathReadable(MemberAt(d.members, path[0]).value.1, path[1..]))
  }

  lemma FindsKey(text: Bytes, at: nat, d: Doc, key: Bytes)
    requires Holds(text, at, Print(d)) && d.DObject?
    ensures ByteAt(text, at, LBRACE)
    ensures FindKeyInObject(text, at, key) ==
            if !MembersReadable(d.members, key) then Malformed
            else if MemberAt(d.members, key).None? then Ok(None)
            else Ok(Some(at + 1 + MemberAt(d.members, key).value.0))
    ensures MemberAt(d.members, key).Some? ==>
              Located(text, at + 1 + MemberAt(d.members, key).value.0, MemberAt(d.members, key).value.1)
  {
    hide AllWs, FindKeyInObject, FindKeyFrom, MembersReadable, MemberAt, PrintMembers, Located;
    HoldsConcat(text, at, [LBRACE], PrintMembers(d.members));
    HoldsByte(text, at, LBRACE);
    StartsAtFirstKey(text, at, d.members, key);
    FindsMember(text, at + 1, d.members, key);
  }

  lemma StartsAtFirstKey(text: Bytes, at: nat, members: Members, key: Bytes)
    requires Holds(text, at + 1, PrintMembers(members))
    ensures FindKeyInObject(text, at, key) == FindKeyFrom(text, at + 1 + |members.beforeKey|, key)
  {
    hide AllWs, Holds, SkipWs, FindKeyFrom, Print, PrintMembers, PrintKey, WellEscaped;
    MemberPieces(text, at + 1, members);
    KeyPieces(text, at + 1, members);
    HoldsFirst(text, at + 1 + |members.beforeKey|, PrintString(members.key));
    SkipsBlanks(text, at + 1, members.beforeKey);
  }

  lemma FindsNoKeyInEmpty(text: Bytes, at: nat, d: Doc, key: Bytes)
    requires d.DEmptyObject? && Holds(text, at, Print(d))
    ensures FindKeyInObject(text, at, key) == Ok(None)
  {
    var gap := d.gap;
    HoldsConcat(text, at, [LBRACE] + gap, [RBRACE]);
    HoldsConcat(text, at, [LBRACE], gap);
    HoldsByte(text, at + 1 + |gap|, RBRACE);
    SkipsBlanks(text, at + 1, gap);
  }

  lemma OnlyObjectsOpenBrace(d: Doc)
    ensures Print(d) != []
    ensures Print(d)[0] == LBRACE <==> IsObjectDoc(d)
    ensures Print(d)[0] == LBRACKET <==> IsArrayDoc(d)
    ensures Print(d)[0] == QUOTE <==> d.DString?
  {
    if d.DNumber? {
      NumeralBytes(d.num);
    }
  }

  /** Path lookup returns exactly the byte range of the sub-value the keys name, `None` exactly when
    * the path does not resolve, and gives up exactly when it has to read a `\u` escape. */
  lemma {:induction false} FindsPathFrom(text: Bytes, at: nat, d: Doc, path: seq<Bytes>)
    requires Located(text, at, d)
    ensures FindFrom(text, at, path) ==
            if !PathReadable(d, path) then Malformed
            else if PathAt(d, path).None? then Ok(None)
            else
              var (off, v) := PathAt(d, path).value;
              Ok(Some((at + off, at + off + |Print(v)|)))
    ensures PathAt(d, path).Some? ==> Located(text, at + PathAt(d, path).value.0, PathAt(d, path).value.1)
    decreases |path|
  {
    hide AllWs, FindKeyInObject, SkipValue, MembersReadable, MemberAt, Skippable, Holds, Print, PrintMembers,
      WellEscaped, HasUnicodeEscape, IsIntegerPart, IsFraction, IsExponent;
    OnlyObjectsOpenBrace(d);
    HoldsFirst(text, at, Print(d));
    if path == [] {
      SkipsExactly(text, at, d);
    } else if d.DObject? {
      FindsKey(text, at, d, path[0]);
      var m := MemberAt(d.members, path[0]);
      if m.Some? {
        FindsPathFrom(text, at + 1 + m.value.0, m.value.1, path[1..]);
      }
    } else if d.DEmptyObject? {
      FindsNoKeyInEmpty(text, at, d, path[0]);
    }
  }

  /** The same for a whole text: blanks, the document, then nothing or something delimited. */
  lemma FindsPath(before: Space, d: Doc, after: Bytes, path: seq<Bytes>)
    requires Delimited(after, 0)
    ensures
      var text := before + Print(d) + after;
      FindPath(text, path) ==
        if !PathReadable(d, path) then Malformed
        else if PathAt(d, path).None? then Ok(None)
        else
          var (off, v) := PathAt(d, path).value;
          Ok(Some((|before| + off, |before| + off + |Print(v)|)))
    ensures PathAt(d, path).Some? ==>
              Located(before + Print(d) + after, |before| + PathAt(d, path).value.0, PathAt(d, path).value.1)
  {
    hide Located, SkipWs, FindFrom, PathReadable, PathAt, Print, AllWs;
    WholeLocated(before, d, after);
    FindsPathFrom(before + Print(d) + after, |before|, d, path);
  }

  lemma WholeLocated(before: Space, d: Doc, after: Bytes)
    requires Delimited(after, 0)
    ensures
      var text := before + Print(d) + after;
      Located(text, |before|, d) && SkipWs(text, 0) == |before|
  {
    hide SkipWs, Print, AllWs;
    var text := before + Print(d) + after;
    var at := |before|;
    assert Holds(text, 0, text);
    HoldsConcat(text, 0, before + Print(d), after);
    HoldsConcat(text, 0, before, Print(d));
    assert after != [] ==> text[at + |Print(d)|] == after[0];
    PrintNonEmpty(d);
    HoldsFirst(text, at, Print(d));
    SkipsBlanks(text, 0, before);
  }

  lemma LocatedInSlice(text: Bytes, at: nat, d: Doc)
    requires Located(text, at, d)
    ensures at <= |text| && Located(text[at..], 0, d) && SkipWs(text[at..], 0) == 0
  {
    var s := text[at..];
    PrintNonEmpty(d);
    assert s[0..|Print(d)|] == text[at..at + |Print(d)|];
    HoldsFirst(s, 0, Print(d));
  }

  /** And for a lookup on the rest of a buffer, whose offsets count from there. */
  lemma FindsPathInSlice(text: Bytes, at: nat, d: Doc, path: seq<Bytes>)
    requires Located(text, at, d)
    ensures at <= |text|
    ensures FindPath(text[at..], path) ==
            if !PathReadable(d, path) then Malformed
            else if PathAt(d, path).None? then Ok(None)
            else
              var (off, v) := PathAt(d, path).value;
              Ok(Some((off, off + |Print(v)|)))
    ensures PathAt(d, path).Some? ==> Located(text, at + PathAt(d, path).value.0, PathAt(d, path).value.1)
  {
    hide Located, SkipWs, FindFrom, PathReadable, PathAt, Print;
    LocatedInSlice(text, at, d);
    FindsPathFrom(text[at..], 0, d, path);
    FindsPathFrom(text, at, d, path);
  }

  // ----- Visiting the elements of an array

  function DocsOf(items: Items): seq<Doc>
    decreases items
  {
    [items.doc] + (if items.Item? then DocsOf(items.rest) else [])
  }

  function Elements(d: Doc): seq<Doc>
    requires IsArrayDoc(d)
  {
    if d.DArray? then DocsOf(d.items) else []
  }

  predicate AnyDoc(docs: seq<Doc>, test: Doc -> bool) {
    exists e | e in docs :: test(e)
  }

  predicate AllSkippable(docs: seq<Doc>) {
    forall e | e in docs :: Skippable(e)
  }

  /** What a visitor can tell about the elements it sees: `hit` at an element's offset answers
    * `test` of that element. */
  ghost predicate Answers(text: Bytes, docs: seq<Doc>, hit: nat -> bool, test: Doc -> bool) {
    forall p: nat, e | e in docs && Located(text, p, e) :: hit(p) == test(e)
  }

  lemma ItemStops(text: Bytes, i: nat, items: Items)
    requires Holds(text, i, PrintItems(items))
    ensures
      var end := i + |items.before| + |Print(items.doc)|;
      && SkipWs(text, end) == end + |items.after|
      && ByteAt(text, end + |items.after|, ItemTail(items)[0])
  {
    hide AllWs, Holds, SkipWs, Print, PrintItems;
    ItemPieces(text, i, items);
    var end := i + |items.before| + |Print(items.doc)|;
    HoldsFirst(text, end + |items.after|, ItemTail(items));
    SkipsBlanks(text, end, items.after);
  }

  lemma SkipsToItem(text: Bytes, i: nat, items: Items)
    requires Holds(text, i, PrintItems(items))
    ensures SkipWs(text, i) == i + |items.before|
    ensures !ByteAt(text, i + |items.before|, RBRACKET)
  {
    hide AllWs, Holds, SkipWs, Print, PrintItems;
    ItemPieces(text, i, items);
    NoValueStartsWithBracket(items.doc);
    PrintNonEmpty(items.doc);
    HoldsFirst(text, i + |items.before|, Print(items.doc));
    SkipsBlanks(text, i, items.before);
  }

  /** Where the printed items stand, each from its first byte to behind its last. */
  function ItemSpans(i: nat, items: Items): (spans: Calls)
    ensures |spans| == |DocsOf(items)|
    decreases items
  {
    var start := i + |items.before|;
    var end := start + |Print(items.doc)|;
    [(start, end)] + (if items.Item? then ItemSpans(end + |items.after| + 1, items.rest) else [])
  }

  function Spans(at: nat, d: Doc): (spans: Calls)
    requires IsArrayDoc(d)
    ensures |spans| == |Elements(d)|
  {
    if d.DArray? then ItemSpans(at + 1, d.items) else []
  }

  lemma {:induction false} ItemsStand(text: Bytes, i: nat, items: Items)
    requires Holds(text, i, PrintItems(items))
    ensures forall k :: 0 <= k < |DocsOf(items)| ==>
              && Located(text, ItemSpans(i, items)[k].0, DocsOf(items)[k])
              && ItemSpans(i, items)[k].1 == ItemSpans(i, items)[k].0 + |Print(DocsOf(items)[k])|
    decreases items
  {
    hide AllWs, Holds, Located, Print, PrintItems;
    ItemPieces(text, i, items);
    ItemDelimited(text, i, items);
    if items.Item? {
      var tailAt := i + |items.before| + |Print(items.doc)| + |items.after|;
      HoldsConcat(text, tailAt, [COMMA], PrintItems(items.rest));
      ItemsStand(text, tailAt + 1, items.rest);
    }
  }

  /** The visit of elements `docs` at `spans`: a call for each in order, up to the first that makes the visitor
    * stop; it ends badly only at an element that cannot be skipped, before that element's call. */
  predicate VisitsInOrder(visit: Visit, before: Calls, docs: seq<Doc>, spans: Calls, stop: Calls -> bool)
    requires |docs| == |spans|
  {
    var n := |visit.calls| - |before|;
    && 0 <= n <= |spans|
    && visit.calls == before + spans[..n]
    && (forall k :: 0 <= k < n ==> Skippable(docs[k]))
    && (forall k :: 0 < k < n ==> !stop(before + spans[..k]))
    && (visit.ok ==> n == |spans| || (n > 0 && stop(visit.calls)))
    && (!visit.ok ==> n < |spans| && !Skippable(docs[n]) && (n > 0 ==> !stop(visit.calls)))
  }

  lemma VisitsOne(before: Calls, docs: seq<Doc>, spans: Calls, stop: Calls -> bool, visit: Visit)
    requires |docs| == |spans| && docs != [] && Skippable(docs[0])
    requires
      var seen := before + [spans[0]];
      if stop(seen) || |docs| == 1 then visit == Visit(seen, true)
      else VisitsInOrder(visit, seen, docs[1..], spans[1..], stop)
    ensures VisitsInOrder(visit, before, docs, spans, stop)
  {
    hide Skippable;
    var seen := before + [spans[0]];
    assert spans[..1] == [spans[0]];
    if !stop(seen) && |docs| > 1 {
      var n := |visit.calls| - |before|;
      forall k | 1 <= k <= n ensures before + spans[..k] == seen + spans[1..][..k - 1] {
        assert spans[..k] == [spans[0]] + spans[1..][..k - 1];
      }
      forall k | 0 < k < n ensures !stop(before + spans[..k]) {
        assert before + spans[..k] == seen + spans[1..][..k - 1];
      }
      forall k | 0 <= k < n ensures Skippable(docs[k]) {
        assert k > 0 ==> docs[k] == docs[1..][k - 1];
      }
      assert n < |docs| ==> docs[n] == docs[1..][n - 1];
    }
  }

  lemma VisitsNone(before: Calls, docs: seq<Doc>, spans: Calls, stop: Calls -> bool)
    requires |docs| == |spans| && docs != [] && !Skippable(docs[0])
    ensures VisitsInOrder(Visit(before, false), before, docs, spans, stop)
  {
    assert before + spans[..0] == before;
  }

  lemma VisitsNext(text: Bytes, i: nat, items: Items, calls: Calls, stop: Calls -> bool)
    requires Holds(text, i, PrintItems(items))
    ensures
      var start := i + |items.before|;
      var end := start + |Print(items.doc)|;
      var seen := calls + [(start, end)];
      VisitFrom(text, start, calls, stop) ==
        if !Skippable(items.doc) then Visit(calls, false)
        else if stop(seen) || items.LastItem? then Visit(seen, true)
        else VisitFrom(text, end + |items.after| + 1 + |items.rest.before|, seen, stop)
    ensures items.Item? ==>
              Holds(text, i + |items.before| + |Print(items.doc)| + |items.after| + 1, PrintItems(items.rest))
  {
    hide AllWs, Holds, Located, SkipValue, SkipWs, Print, PrintItems, Skippable;
    ItemPieces(text, i, items);
    ItemDelimited(text, i, items);
    ItemStops(text, i, items);
    SkipsExactly(text, i + |items.before|, items.doc);
    if items.Item? {
      var tailAt := i + |items.before| + |Print(items.doc)| + |items.after|;
      HoldsConcat(text, tailAt, [COMMA], PrintItems(items.rest));
      SkipsToItem(text, tailAt + 1, items.rest);
    }
  }

  lemma {:induction false} VisitsItems(text: Bytes, i: nat, items: Items, calls: Calls, stop: Calls -> bool)
    requires Holds(text, i, PrintItems(items))
    ensures VisitsInOrder(VisitFrom(text, i + |items.before|, calls, stop), calls, DocsOf(items), ItemSpans(i, items), stop)
    decreases items
  {
    hide AllWs, Holds, Print, PrintItems, Skippable, VisitsInOrder, VisitFrom;
    VisitsNext(text, i, items, calls, stop);
    var docs, spans := DocsOf(items), ItemSpans(i, items);
    var visit := VisitFrom(text, i + |items.before|, calls, stop);
    if Skippable(items.doc) {
      var seen := calls + [spans[0]];
      if items.Item? && !stop(seen) {
        var next := spans[0].1 + |items.after| + 1;
        VisitsItems(text, next, items.rest, seen, stop);
        assert docs[1..] == DocsOf(items.rest) && spans[1..] == ItemSpans(next, items.rest);
      }
      VisitsOne(calls, docs, spans, stop, visit);
    } else {
      VisitsNone(calls, docs, spans, stop);
    }
  }

  /** Whatever the visitor, its calls are exactly the elements' places, in order and from the first on; they
    * end behind the last element, at the call that stops them, or with an error in front of the first element
    * that is a string with a `\u` escape. */
  lemma VisitsArray(text: Bytes, at: nat, d: Doc, stop: Calls -> bool)
    requires IsArrayDoc(d) && Holds(text, at, Print(d))
    ensures VisitsInOrder(Visited(text, at, stop), [], Elements(d), Spans(at, d), stop)
    ensures forall k :: 0 <= k < |Elements(d)| ==>
              && Located(text, Spans(at, d)[k].0, Elements(d)[k])
              && Spans(at, d)[k].1 == Spans(at, d)[k].0 + |Print(Elements(d)[k])|
  {
    hide SkipWs, VisitFrom, PrintItems, Skippable, DocsOf, ItemSpans, Located;
    if d.DEmptyArray? {
      HoldsConcat(text, at, [LBRACKET] + d.gap, [RBRACKET]);
      HoldsConcat(text, at, [LBRACKET], d.gap);
      HoldsByte(text, at, LBRACKET);
      HoldsByte(text, at + 1 + |d.gap|, RBRACKET);
      SkipsBlanks(text, at + 1, d.gap);
    } else {
      hide VisitsInOrder;
      HoldsConcat(text, at, [LBRACKET], PrintItems(d.items));
      HoldsByte(text, at, LBRACKET);
      SkipsToItem(text, at + 1, d.items);
      ItemsStand(text, at + 1, d.items);
      VisitsItems(text, at + 1, d.items, [], stop);
    }
  }

  lemma SearchStops(visit: Visit, docs: seq<Doc>, spans: Calls, hit: nat -> bool)
    requires |docs| == |spans| && AllSkippable(docs)
    requires VisitsInOrder(visit, [], docs, spans, (calls: Calls) => Found(hit, calls))
    ensures
      var n := |visit.calls|;
      && visit.ok && n <= |docs| && visit.calls == spans[..n]
      && (forall k :: 0 <= k < n - 1 ==> !hit(spans[k].0))
      && (n < |docs| ==> n > 0 && hit(spans[n - 1].0))
  {
    hide Skippable;
    var stop := (calls: Calls) => Found(hit, calls);
    var n := |visit.calls|;
    assert [] + spans[..n] == spans[..n];
    forall k | 0 <= k < n - 1 ensures !hit(spans[k].0) {
      var upTo := spans[..k + 1];
      assert [] + upTo == upTo && upTo[k] == spans[k];
      assert !stop(upTo);
    }
    assert n < |docs| ==> docs[n] in docs;
  }

  lemma SearchEnds(visit: Visit, docs: seq<Doc>, spans: Calls, hit: nat -> bool, test: Doc -> bool)
    requires |docs| == |spans| && AllSkippable(docs)
    requires VisitsInOrder(visit, [], docs, spans, (calls: Calls) => Found(hit, calls))
    requires forall k :: 0 <= k < |docs| ==> hit(spans[k].0) == test(docs[k])
    ensures visit.ok && (Found(hit, visit.calls) <==> AnyDoc(docs, test))
  {
    hide AllSkippable, VisitsInOrder;
    SearchStops(visit, docs, spans, hit);
    var n := |visit.calls|;
    if Found(hit, visit.calls) {
      assert docs[n - 1] in docs && test(docs[n - 1]);
    } else if AnyDoc(docs, test) {
      var e :| e in docs && test(e);
      var k :| 0 <= k < |docs| && docs[k] == e;
      assert false;
    }
  }

  /** Searching an array answers whether some element passes the test. */
  lemma SearchesArray(text: Bytes, at: nat, d: Doc, hit: nat -> bool, test: Doc -> bool)
    requires IsArrayDoc(d) && Holds(text, at, Print(d))
    requires AllSkippable(Elements(d)) && Answers(text, Elements(d), hit, test)
    ensures AnyElement(text, at, hit) == Ok(AnyDoc(Elements(d), test))
  {
    hide Visited, Spans, Elements, AllSkippable, AnyDoc, Located, Print, Holds, VisitsInOrder;
    var docs, spans := Elements(d), Spans(at, d);
    VisitsArray(text, at, d, (calls: Calls) => Found(hit, calls));
    forall k | 0 <= k < |docs| ensures hit(spans[k].0) == test(docs[k]) {
      assert docs[k] in docs;
    }
    SearchEnds(Visited(text, at, (calls: Calls) => Found(hit, calls)), docs, spans, hit, test);
  }

  lemma NoValueStartsWithBracket(d: Doc)
    ensures Print(d) != [] && Print(d)[0] != RBRACKET
  {
    if d.DNumber? {
      NumeralBytes(d.num);
    }
  }
}
