/** Cutting document bodies into chunks: the recursive strategy for any token counter, the semantic
  * strategy with its overlap. Texts are sequences of characters with their UTF-8 lengths. */
module Chunking {
  import opened Text
  import opened Utf8

  /** A token counter. */
  type Counter = string -> nat

  // ----- Text

  /** `CharApprox`: four bytes a token, the last one perhaps not full. */
  function CharApprox(s: string): (tokens: nat)
    ensures 4 * tokens >= ByteLen(s) > 4 * tokens - 4
  {
    (ByteLen(s) + 3) / 4
  }

  lemma TrimShortens(s: string)
    ensures ByteLen(Trim(s)) <= ByteLen(s)
  {
    hide AllWs, ByteLen;
    var a := TrimStart(s);
    SliceShortens(s, |s| - |a|, |s|);
    assert s[|s| - |a|..|s|] == s[|s| - |a|..];
    SliceShortens(a, 0, |TrimEnd(a)|);
    assert TrimEnd(a) == a[0..|TrimEnd(a)|];
  }

  lemma SliceShortens(s: string, lo: nat, hi: nat)
    requires lo <= hi <= |s|
    ensures ByteLen(s[lo..hi]) <= ByteLen(s)
  {
    hide ByteLen;
    ByteLenJoin(s[..lo], s[lo..hi]);
    ByteLenJoin(s[..lo] + s[lo..hi], s[hi..]);
    assert s == s[..lo] + s[lo..hi] + s[hi..];
  }

  predicate Blank(s: string) {
    Trim(s) == ""
  }

  lemma BlankIsAllWs(s: string)
    ensures Blank(s) <==> AllWs(s)
  {
    hide IsWs;
    var a := TrimStart(s);
    var b := TrimEnd(a);
    if b == "" {
      assert AllWs(a[0..]) && a[0..] == a;
      assert s == s[..|s| - |a|] + a;
    } else {
      assert a[|b| - 1] == b[|b| - 1];
      assert s[|s| - |a| + |b| - 1] == a[|b| - 1];
    }
  }

  // ----- Splitting at a separator

  predicate StartsWith(s: string, sep: string) {
    |sep| <= |s| && s[..|sep|] == sep
  }

  predicate Contains(s: string, sep: string) {
    exists k :: 0 <= k <= |s| && StartsWith(s[k..], sep)
  }

  /** `str::split` for a non-empty separator: leftmost, without overlap; `head` is the piece begun. */
  function SplitFrom(head: string, s: string, sep: string): seq<string>
    requires sep != ""
    decreases |s|
  {
    if s == "" then [head]
    else if StartsWith(s, sep) then [head] + SplitFrom("", s[|sep|..], sep)
    else SplitFrom(head + [s[0]], s[1..], sep)
  }

  function Characters(s: string): seq<string> {
    if s == "" then [] else [[s[0]]] + Characters(s[1..])
  }

  /** The empty separator splits around every character. */
  function Split(s: string, sep: string): seq<string> {
    if sep == "" then [""] + Characters(s) + [""] else SplitFrom("", s, sep)
  }

  // ----- The recursive strategy

  function RecursiveInner(input: string, seps: seq<string>, maxTokens: nat, depth: nat, count: Counter): seq<string>
    requires depth <= |seps|
    decreases |seps| - depth, 1, 0
  {
    if count(input) <= maxTokens || depth >= |seps| then [input]
    else Gathered(Split(input, seps[depth]), seps, maxTokens, depth, count)
  }

  function Gathered(pieces: seq<string>, seps: seq<string>, maxTokens: nat, depth: nat, count: Counter): seq<string>
    requires depth < |seps|
    decreases |seps| - depth, 0, |pieces|
  {
    if pieces == [] then []
    else FromPiece(pieces[0], seps, maxTokens, depth, count) + Gathered(pieces[1..], seps, maxTokens, depth, count)
  }

  /** What one piece of a split contributes. */
  function FromPiece(piece: string, seps: seq<string>, maxTokens: nat, depth: nat, count: Counter): seq<string>
    requires depth < |seps|
    decreases |seps| - depth, 0, 0
  {
    if piece == "" then []
    else if count(piece) > maxTokens then RecursiveInner(piece, seps, maxTokens, depth + 1, count)
    else [piece]
  }

  method RecursiveChunks(input: string, seps: seq<string>, maxTokens: nat, depth: nat, count: Counter)
    returns (out: seq<string>)
    requires depth <= |seps|
    ensures out == RecursiveInner(input, seps, maxTokens, depth, count)
    decreases |seps| - depth
  {
    hide Split;
    if count(input) <= maxTokens || depth >= |seps| {
      return [input];
    }
    out := [];
    var pieces := Split(input, seps[depth]);
    for i := 0 to |pieces|
      invariant out + Gathered(pieces[i..], seps, maxTokens, depth, count) ==
                Gathered(pieces, seps, maxTokens, depth, count)
    {
      hide RecursiveInner;
      assert pieces[i..][1..] == pieces[i + 1..];
      assert out + FromPiece(pieces[i], seps, maxTokens, depth, count)
             + Gathered(pieces[i + 1..], seps, maxTokens, depth, count) ==
             Gathered(pieces, seps, maxTokens, depth, count);
      if pieces[i] == "" {
        assert out + [] == out;
        continue;
      }
      if count(pieces[i]) > maxTokens {
        var inner := RecursiveChunks(pieces[i], seps, maxTokens, depth + 1, count);
        out := out + inner;
      } else {
        out := out + [pieces[i]];
      }
    }
    assert out + [] == out;
  }

  /** The input as kept pieces and removed separators, in order. */
  datatype Part = Kept(text: string) | Cut(sep: string)

  function PartText(part: Part): string {
    match part case Kept(t) => t case Cut(s) => s
  }

  function PartKept(part: Part): seq<string> {
    match part case Kept(t) => [t] case Cut(_) => []
  }

  function Whole(parts: seq<Part>): string {
    if parts == [] then "" else PartText(parts[0]) + Whole(parts[1..])
  }

  function KeptTexts(parts: seq<Part>): seq<string> {
    if parts == [] then [] else PartKept(parts[0]) + KeptTexts(parts[1..])
  }

  predicate CutsOnly(parts: seq<Part>, seps: seq<string>) {
    forall k :: 0 <= k < |parts| ==> parts[k].Cut? ==> parts[k].sep in seps
  }

  lemma {:induction false} WholeJoin(a: seq<Part>, b: seq<Part>)
    ensures Whole(a + b) == Whole(a) + Whole(b)
  {
    hide PartText;
    if a == [] {
      assert a + b == b;
    } else {
      WholeJoin(a[1..], b);
      assert (a + b)[1..] == a[1..] + b;
    }
  }

  lemma {:induction false} KeptJoin(a: seq<Part>, b: seq<Part>)
    ensures KeptTexts(a + b) == KeptTexts(a) + KeptTexts(b)
  {
    hide PartKept;
    if a == [] {
      assert a + b == b;
    } else {
      KeptJoin(a[1..], b);
      assert (a + b)[1..] == a[1..] + b;
    }
  }

  function Interleaved(pieces: seq<string>, sep: string): string {
    if pieces == [] then "" else if |pieces| == 1 then pieces[0] else pieces[0] + sep + Interleaved(pieces[1..], sep)
  }

  lemma {:induction false} SplitFromJoins(head: string, s: string, sep: string)
    requires sep != ""
    ensures SplitFrom(head, s, sep) != [] && Interleaved(SplitFrom(head, s, sep), sep) == head + s
    decreases |s|
  {
    if s != "" {
      if StartsWith(s, sep) {
        SplitFromJoins("", s[|sep|..], sep);
        assert s == sep + s[|sep|..];
        var rest := SplitFrom("", s[|sep|..], sep);
        assert ([head] + rest)[1..] == rest;
        assert "" + s[|sep|..] == s[|sep|..];
        assert head + sep + s[|sep|..] == head + (sep + s[|sep|..]);
      } else {
        SplitFromJoins(head + [s[0]], s[1..], sep);
        assert head + [s[0]] + s[1..] == head + s;
      }
    }
  }

  lemma {:induction false} CharactersJoin(s: string)
    ensures Interleaved(Characters(s) + [""], "") == s
  {
    if s == "" {
      assert Characters(s) + [""] == [""];
    } else {
      CharactersJoin(s[1..]);
      var all := Characters(s) + [""];
      assert all[1..] == Characters(s[1..]) + [""];
      assert all[0] == [s[0]];
      assert [s[0]] + "" + s[1..] == s;
    }
  }

  lemma SplitJoins(s: string, sep: string)
    ensures Split(s, sep) != [] && Interleaved(Split(s, sep), sep) == s
  {
    hide Interleaved;
    if sep == "" {
      CharactersJoin(s);
      EmptyFirst(Characters(s) + [""]);
      assert [""] + Characters(s) + [""] == [""] + (Characters(s) + [""]);
    } else {
      SplitFromJoins("", s, sep);
      assert "" + s == s;
    }
  }

  lemma EmptyFirst(pieces: seq<string>)
    requires pieces != []
    ensures Interleaved([""] + pieces, "") == Interleaved(pieces, "")
  {
    assert ([""] + pieces)[1..] == pieces;
    assert "" + "" + Interleaved(pieces, "") == Interleaved(pieces, "");
  }

  /** What a list of pieces with the separator between them is made of. */
  lemma {:induction false} GatheredParts(pieces: seq<string>, seps: seq<string>, maxTokens: nat, depth: nat,
                                         count: Counter) returns (parts: seq<Part>)
    requires depth < |seps|
    ensures CutsOnly(parts, seps)
    ensures Whole(parts) == Interleaved(pieces, seps[depth])
    ensures KeptTexts(parts) == Gathered(pieces, seps, maxTokens, depth, count)
    decreases |seps| - depth, 0, |pieces|
  {
    hide RecursiveInner, FromPiece, CutsOnly, Whole, KeptTexts;
    NoParts(seps);
    if pieces == [] {
      parts := [];
    } else {
      var first := PieceParts(pieces[0], seps, maxTokens, depth, count);
      var rest := GatheredParts(pieces[1..], seps, maxTokens, depth, count);
      if |pieces| == 1 {
        JoinParts(first, rest, seps);
        parts := first + rest;
        assert pieces[1..] == [];
        assert Whole(first) + "" == Whole(first);
      } else {
        var cut := [Cut(seps[depth])];
        OneCut(seps, depth);
        JoinParts(first, cut, seps);
        JoinParts(first + cut, rest, seps);
        parts := first + cut + rest;
        assert KeptTexts(first) + [] + KeptTexts(rest) == KeptTexts(first) + KeptTexts(rest);
      }
    }
  }

  lemma NoParts(seps: seq<string>)
    ensures CutsOnly([], seps) && Whole([]) == "" && KeptTexts([]) == []
  {
  }

  lemma OneCut(seps: seq<string>, depth: nat)
    requires depth < |seps|
    ensures CutsOnly([Cut(seps[depth])], seps)
    ensures Whole([Cut(seps[depth])]) == seps[depth] && KeptTexts([Cut(seps[depth])]) == []
  {
    assert seps[depth] + "" == seps[depth];
  }

  lemma OneKept(text: string, seps: seq<string>)
    ensures CutsOnly([Kept(text)], seps) && Whole([Kept(text)]) == text && KeptTexts([Kept(text)]) == [text]
  {
    assert text + "" == text;
  }

  lemma JoinParts(a: seq<Part>, b: seq<Part>, seps: seq<string>)
    requires CutsOnly(a, seps) && CutsOnly(b, seps)
    ensures CutsOnly(a + b, seps)
    ensures Whole(a + b) == Whole(a) + Whole(b)
    ensures KeptTexts(a + b) == KeptTexts(a) + KeptTexts(b)
  {
    WholeJoin(a, b);
    KeptJoin(a, b);
  }

  lemma {:induction false} PieceParts(piece: string, seps: seq<string>, maxTokens: nat, depth: nat, count: Counter)
    returns (parts: seq<Part>)
    requires depth < |seps|
    ensures CutsOnly(parts, seps) && Whole(parts) == piece
    ensures KeptTexts(parts) == FromPiece(piece, seps, maxTokens, depth, count)
    decreases |seps| - depth, 0, 0
  {
    hide CutsOnly;
    if piece == "" {
      parts := [];
      NoParts(seps);
    } else if count(piece) > maxTokens {
      parts := RecursiveParts(piece, seps, maxTokens, depth + 1, count);
    } else {
      parts := [Kept(piece)];
      OneKept(piece, seps);
    }
  }

  /** The pieces, in order, are the input with only separators removed. */
  lemma {:induction false} RecursiveParts(input: string, seps: seq<string>, maxTokens: nat, depth: nat, count: Counter)
    returns (parts: seq<Part>)
    requires depth <= |seps|
    ensures CutsOnly(parts, seps) && Whole(parts) == input
    ensures KeptTexts(parts) == RecursiveInner(input, seps, maxTokens, depth, count)
    decreases |seps| - depth, 1, 0
  {
    hide CutsOnly, Split;
    if count(input) <= maxTokens || depth >= |seps| {
      parts := [Kept(input)];
      OneKept(input, seps);
    } else {
      parts := GatheredParts(Split(input, seps[depth]), seps, maxTokens, depth, count);
      SplitJoins(input, seps[depth]);
    }
  }

  // ----- What is left in a piece

  predicate FreeOf(s: string, seps: seq<string>, n: nat)
    requires n <= |seps|
  {
    forall k :: 0 <= k < n ==> !Contains(s, seps[k])
  }

  lemma ContainedIn(t: string, s: string, sep: string)
    requires Contains(s, t) && Contains(t, sep)
    ensures Contains(s, sep)
  {
    var k :| 0 <= k <= |s| && StartsWith(s[k..], t);
    var j :| 0 <= j <= |t| && StartsWith(t[j..], sep);
    var rest := s[k..];
    assert rest == t + rest[|t|..];
    LongerStart(t[j..], rest[|t|..], sep);
    SameTail(t, rest[|t|..], j);
    assert rest[j..] == s[k + j..];
  }

  /** Reading on from `head`, in which the separator does not start anywhere even with what follows. */
  lemma {:induction false} SplitFromFree(head: string, s: string, sep: string, whole: string, at: nat)
    requires sep != "" && at <= |whole| && whole[at..] == head + s
    requires forall k :: 0 <= k < |head| ==> !StartsWith((head + s)[k..], sep)
    ensures forall p :: p in SplitFrom(head, s, sep) ==> Contains(whole, p) && !Contains(p, sep)
    decreases |s|
  {
    hide Contains;
    if s == "" {
      HeadFree(head, s, sep, whole, at);
    } else if StartsWith(s, sep) {
      HeadFree(head, s, sep, whole, at);
      SkipHead(head, s, sep, whole, at);
      SplitFromFree("", s[|sep|..], sep, whole, at + |head| + |sep|);
    } else {
      LongerHead(head, s, sep);
      SplitFromFree(head + [s[0]], s[1..], sep, whole, at);
    }
  }

  lemma SkipHead(head: string, s: string, sep: string, whole: string, at: nat)
    requires at <= |whole| && whole[at..] == head + s && StartsWith(s, sep)
    ensures at + |head| + |sep| <= |whole|
    ensures whole[at + |head| + |sep|..] == "" + s[|sep|..]
  {
    assert |whole[at..]| == |head| + |s|;
    assert whole[at + |head| + |sep|..] == whole[at..][|head| + |sep|..];
  }

  lemma LongerHead(head: string, s: string, sep: string)
    requires s != "" && !StartsWith(s, sep)
    requires forall k :: 0 <= k < |head| ==> !StartsWith((head + s)[k..], sep)
    ensures (head + [s[0]]) + s[1..] == head + s
    ensures forall k :: 0 <= k < |head + [s[0]]| ==> !StartsWith(((head + [s[0]]) + s[1..])[k..], sep)
  {
    hide StartsWith;
    assert (head + [s[0]]) + s[1..] == head + s;
    assert (head + s)[|head|..] == s;
  }

  lemma LongerStart(a: string, b: string, sep: string)
    requires StartsWith(a, sep)
    ensures StartsWith(a + b, sep)
  {
    assert (a + b)[..|sep|] == a[..|sep|];
  }

  lemma HeadFree(head: string, s: string, sep: string, whole: string, at: nat)
    requires sep != "" && at <= |whole| && whole[at..] == head + s
    requires forall k :: 0 <= k < |head| ==> !StartsWith((head + s)[k..], sep)
    ensures Contains(whole, head) && !Contains(head, sep)
  {
    assert StartsWith(whole[at..], head);
    forall k | 0 <= k <= |head| ensures !StartsWith(head[k..], sep) {
      if k < |head| && StartsWith(head[k..], sep) {
        LongerStart(head[k..], s, sep);
        SameTail(head, s, k);
      }
    }
  }

  lemma SameTail(head: string, s: string, k: nat)
    requires k <= |head|
    ensures (head + s)[k..] == head[k..] + s
  {
  }

  lemma PieceFree(input: string, piece: string, seps: seq<string>, depth: nat)
    requires depth < |seps| && seps[depth] != "" && FreeOf(input, seps, depth)
    requires piece in Split(input, seps[depth])
    ensures FreeOf(piece, seps, depth + 1)
  {
    hide Contains;
    assert input[0..] == "" + input;
    SplitFromFree("", input, seps[depth], input, 0);
    forall k | 0 <= k < depth + 1 ensures !Contains(piece, seps[k]) {
      if k < depth && Contains(piece, seps[k]) {
        ContainedIn(piece, input, seps[k]);
      }
    }
  }

  predicate Fits(piece: string, seps: seq<string>, maxTokens: nat, count: Counter) {
    count(piece) <= maxTokens || FreeOf(piece, seps, |seps|)
  }

  lemma {:induction false} GatheredFits(pieces: seq<string>, seps: seq<string>, maxTokens: nat, depth: nat, count: Counter)
    requires depth < |seps| && forall k :: 0 <= k < |seps| ==> seps[k] != ""
    requires forall p :: p in pieces ==> FreeOf(p, seps, depth + 1)
    ensures forall p :: p in Gathered(pieces, seps, maxTokens, depth, count) ==> p != "" && Fits(p, seps, maxTokens, count)
    decreases |seps| - depth, 0, |pieces|
  {
    hide FreeOf;
    if pieces != [] {
      assert pieces[0] in pieces;
      forall p | p in pieces[1..] ensures FreeOf(p, seps, depth + 1) {
        assert p in pieces;
      }
      hide Fits, FromPiece;
      GatheredFits(pieces[1..], seps, maxTokens, depth, count);
      FromPieceFits(pieces[0], seps, maxTokens, depth, count);
    }
  }

  lemma {:induction false} FromPieceFits(piece: string, seps: seq<string>, maxTokens: nat, depth: nat, count: Counter)
    requires depth < |seps| && forall k :: 0 <= k < |seps| ==> seps[k] != ""
    requires FreeOf(piece, seps, depth + 1)
    ensures forall p :: p in FromPiece(piece, seps, maxTokens, depth, count) ==> p != "" && Fits(p, seps, maxTokens, count)
    decreases |seps| - depth, 0, 0
  {
    hide FreeOf;
    if piece != "" && count(piece) > maxTokens {
      RecursiveFits(piece, seps, maxTokens, depth + 1, count);
    }
  }

  /** Every piece of a non-empty input is non-empty, and within the budget or free of every separator. */
  lemma {:induction false} RecursiveFits(input: string, seps: seq<string>, maxTokens: nat, depth: nat, count: Counter)
    requires depth <= |seps| && (forall k :: 0 <= k < |seps| ==> seps[k] != "")
    requires input != "" && FreeOf(input, seps, depth)
    ensures forall p :: p in RecursiveInner(input, seps, maxTokens, depth, count) ==>
              p != "" && Fits(p, seps, maxTokens, count)
    decreases |seps| - depth, 1, 0
  {
    hide FreeOf, Split;
    if count(input) > maxTokens && depth < |seps| {
      forall p | p in Split(input, seps[depth]) ensures FreeOf(p, seps, depth + 1) {
        PieceFree(input, p, seps, depth);
      }
      GatheredFits(Split(input, seps[depth]), seps, maxTokens, depth, count);
    }
  }

  // ----- The semantic strategy

  const GAP: string := "\n\n"

  function NonBlank(parts: seq<string>): seq<string> {
    if parts == [] then [] else (if Blank(parts[0]) then [] else [parts[0]]) + NonBlank(parts[1..])
  }

  function Paragraphs(body: string): seq<string> {
    NonBlank(Split(body, GAP))
  }

  /** The longest end of the text within that many bytes, at a character boundary. */
  function Suffix(s: string, bytes: nat): (r: string)
    ensures |r| <= |s| && r == s[|s| - |r|..] && ByteLen(r) <= bytes
    ensures |r| < |s| ==> ByteLen(s[|s| - |r| - 1..]) > bytes
  {
    if ByteLen(s) <= bytes then s else Suffix(s[1..], bytes)
  }

  function CarryOverlap(current: string, overlap: nat): string {
    if overlap == 0 then "" else Suffix(current, 4 * overlap)
  }

  /** The text being collected after one more paragraph. */
  function Extended(current: string, p: string): string {
    if current == "" then p else current + GAP + p
  }

  predicate Flushes(current: string, p: string, maxTokens: nat, count: Counter) {
    count(current + GAP + p) > maxTokens && current != ""
  }

  /** The chunks from `current` and the paragraphs still to come. */
  function Collect(current: string, paragraphs: seq<string>, maxTokens: nat, overlap: nat, count: Counter): seq<string>
    decreases |paragraphs|
  {
    if paragraphs == [] then if Blank(current) then [] else [Trim(current)]
    else
      var p := paragraphs[0];
      if Flushes(current, p, maxTokens, count) then
        [Trim(current)]
        + Collect(Extended(CarryOverlap(current, overlap), p), paragraphs[1..], maxTokens, overlap, count)
      else Collect(Extended(current, p), paragraphs[1..], maxTokens, overlap, count)
  }

  /** What the strategy returns: the body itself when nothing was collected. */
  function Semantic(body: string, maxTokens: nat, overlap: nat, count: Counter): seq<string> {
    var collected := Collect("", Paragraphs(body), maxTokens, overlap, count);
    if collected == [] then [body] else collected
  }

  lemma CollectOne(current: string, paragraphs: seq<string>, i: nat, maxTokens: nat, overlap: nat, count: Counter)
    requires i < |paragraphs|
    ensures
      var flush := Flushes(current, paragraphs[i], maxTokens, count);
      Collect(current, paragraphs[i..], maxTokens, overlap, count) ==
      (if flush then [Trim(current)] else [])
      + Collect(Extended(if flush then CarryOverlap(current, overlap) else current, paragraphs[i]),
                paragraphs[i + 1..], maxTokens, overlap, count)
  {
    hide Trim, Blank, CarryOverlap, Extended, Flushes;
    assert paragraphs[i..][1..] == paragraphs[i + 1..];
  }

  lemma CollectEnd(current: string, maxTokens: nat, overlap: nat, count: Counter)
    ensures Collect(current, [], maxTokens, overlap, count) == if Blank(current) then [] else [Trim(current)]
  {
    hide Blank, Trim;
  }

  lemma FlushMeans(current: string, p: string, maxTokens: nat, count: Counter)
    ensures Flushes(current, p, maxTokens, count) <==> count(current + GAP + p) > maxTokens && current != ""
  {
  }

  lemma ExtendedMeans(current: string, p: string)
    ensures Extended(current, p) == (if current != "" then current + GAP else current) + p
  {
    assert "" + p == p;
  }

  method SemanticChunks(body: string, maxTokens: nat, overlap: nat, count: Counter) returns (chunks: seq<string>)
    ensures chunks == Semantic(body, maxTokens, overlap, count)
  {
    hide Trim, Blank, CarryOverlap, Paragraphs, Collect, Flushes, Extended;
    var paragraphs := Paragraphs(body);
    chunks := [];
    var current := "";
    for i := 0 to |paragraphs|
      invariant chunks + Collect(current, paragraphs[i..], maxTokens, overlap, count) ==
                Collect("", paragraphs, maxTokens, overlap, count)
    {
      var p := paragraphs[i];
      CollectOne(current, paragraphs, i, maxTokens, overlap, count);
      ghost var kept := if Flushes(current, p, maxTokens, count) then CarryOverlap(current, overlap) else current;
      var candidateTokens := count(current + GAP + p);
      ghost var flush := Flushes(current, p, maxTokens, count);
      assert flush == (candidateTokens > maxTokens && current != "") by { FlushMeans(current, p, maxTokens, count); }
      if candidateTokens > maxTokens && current != "" {
        chunks := chunks + [Trim(current)];
        current := CarryOverlap(current, overlap);
      }
      assert current == kept;
      ExtendedMeans(kept, p);
      if current != "" {
        current := current + GAP;
      }
      current := current + p;
    }
    CollectEnd(current, maxTokens, overlap, count);
    assert paragraphs[|paragraphs|..] == [];
    if !Blank(current) {
      chunks := chunks + [Trim(current)];
    }
    if chunks == [] {
      chunks := [body];
    }
  }

  // ----- When the body itself comes back

  lemma BlankJoin(a: string, b: string)
    ensures AllWs(a + GAP + b) <==> AllWs(a) && AllWs(b)
  {
    hide IsWs;
    var all := a + GAP + b;
    assert forall k :: 0 <= k < |a| ==> all[k] == a[k];
    assert forall k :: 0 <= k < |b| ==> all[|a| + 2 + k] == b[k];
    GapIsBlank();
    assert forall k :: 0 <= k < 2 ==> all[|a| + k] == GAP[k];
  }

  lemma GapIsBlank()
    ensures |GAP| == 2 && IsWs(GAP[0]) && IsWs(GAP[1])
  {
  }

  lemma {:induction false} PiecesBlank(pieces: seq<string>)
    ensures AllWs(Interleaved(pieces, GAP)) <==> forall p :: p in pieces ==> AllWs(p)
  {
    hide AllWs;
    if pieces == [] {
      assert AllWs("") by { NothingIsBlank(); }
    } else if |pieces| == 1 {
      assert pieces[0] in pieces;
    } else {
      PiecesBlank(pieces[1..]);
      BlankJoin(pieces[0], Interleaved(pieces[1..], GAP));
      assert pieces == [pieces[0]] + pieces[1..];
    }
  }

  lemma NothingIsBlank()
    ensures AllWs("")
  {
  }

  lemma {:induction false} NonBlankEmpty(parts: seq<string>)
    ensures NonBlank(parts) == [] <==> forall p :: p in parts ==> Blank(p)
  {
    hide Blank;
    if parts != [] {
      NonBlankEmpty(parts[1..]);
      assert parts == [parts[0]] + parts[1..];
    }
  }

  /** A body has paragraphs exactly when it is not blank. */
  lemma ParagraphsExactly(body: string)
    ensures Paragraphs(body) == [] <==> Blank(body)
  {
    hide Blank, Split, NonBlank, Interleaved, AllWs;
    var pieces := Split(body, GAP);
    SplitJoins(body, GAP);
    PiecesBlank(pieces);
    NonBlankEmpty(pieces);
    BlankIsAllWs(body);
    forall p | p in pieces ensures Blank(p) <==> AllWs(p) {
      BlankIsAllWs(p);
    }
  }

  lemma ExtendedNotBlank(current: string, p: string)
    requires !Blank(p)
    ensures !Blank(Extended(current, p))
  {
    hide Blank, AllWs;
    BlankIsAllWs(p);
    BlankIsAllWs(Extended(current, p));
    if current != "" {
      BlankJoin(current, p);
    }
  }

  /** Text once collected comes out in some chunk. */
  lemma {:induction false} CollectSomething(current: string, paragraphs: seq<string>, maxTokens: nat, overlap: nat,
                                            count: Counter)
    requires forall p :: p in paragraphs ==> !Blank(p)
    requires !Blank(current) || paragraphs != []
    ensures Collect(current, paragraphs, maxTokens, overlap, count) != []
    decreases |paragraphs|
  {
    hide Blank, Trim, Extended, Flushes, CarryOverlap;
    if paragraphs != [] {
      var p := paragraphs[0];
      assert p in paragraphs;
      ExtendedNotBlank(current, p);
      if !Flushes(current, p, maxTokens, count) {
        CollectSomething(Extended(current, p), paragraphs[1..], maxTokens, overlap, count);
      }
    }
  }

  /** The fallback is taken exactly for a blank body, for which there is nothing to collect; the caller
    * has filtered that case out. */
  lemma SemanticExactly(body: string, maxTokens: nat, overlap: nat, count: Counter)
    ensures
      var collected := Collect("", Paragraphs(body), maxTokens, overlap, count);
      && (Blank(body) ==> collected == [] && Semantic(body, maxTokens, overlap, count) == [body])
      && (!Blank(body) ==> collected != [] && Semantic(body, maxTokens, overlap, count) == collected)
  {
    hide Blank, Split, NonBlank;
    ParagraphsExactly(body);
    EmptyIsBlank();
    if !Blank(body) {
      NonBlankOnly(Split(body, GAP));
      CollectSomething("", Paragraphs(body), maxTokens, overlap, count);
    }
  }

  // ----- Sizes under the four-bytes counter

  /** The largest byte length a chunk may have. */
  function Bound(maxTokens: nat, overlap: nat, longest: nat): (b: nat)
    ensures b >= 4 * maxTokens && b >= 4 * overlap + 2 + longest
  {
    if 4 * maxTokens > 4 * overlap + 2 + longest then 4 * maxTokens else 4 * overlap + 2 + longest
  }

  lemma ExtendedLength(current: string, p: string)
    ensures ByteLen(current + GAP + p) == ByteLen(current) + 2 + ByteLen(p)
    ensures ByteLen(Extended(current, p)) <= ByteLen(current) + 2 + ByteLen(p)
  {
    ByteLenJoin(current + GAP, p);
    ByteLenJoin(current, GAP);
    assert GAP[1..] == "\n";
    assert GAP[1..][1..] == "";
    assert ByteLen(GAP) == 2;
  }

  lemma CarryLength(current: string, overlap: nat)
    ensures ByteLen(CarryOverlap(current, overlap)) <= 4 * overlap
  {
  }

  /** One paragraph more keeps the collected text within the bound. */
  lemma ExtendedFits(current: string, p: string, maxTokens: nat, overlap: nat, longest: nat)
    requires ByteLen(p) <= longest
    ensures Flushes(current, p, maxTokens, CharApprox) ==>
              ByteLen(Extended(CarryOverlap(current, overlap), p)) <= Bound(maxTokens, overlap, longest)
    ensures !Flushes(current, p, maxTokens, CharApprox) ==>
              ByteLen(Extended(current, p)) <= Bound(maxTokens, overlap, longest)
  {
    hide ByteLen, CarryOverlap;
    CarryLength(current, overlap);
    ExtendedLength(CarryOverlap(current, overlap), p);
    ExtendedLength(current, p);
  }

  lemma {:induction false} CollectFits(current: string, paragraphs: seq<string>, maxTokens: nat, overlap: nat, longest: nat)
    requires forall p :: p in paragraphs ==> ByteLen(p) <= longest
    requires ByteLen(current) <= Bound(maxTokens, overlap, longest)
    ensures forall c :: c in Collect(current, paragraphs, maxTokens, overlap, CharApprox) ==>
              ByteLen(c) <= Bound(maxTokens, overlap, longest)
    decreases |paragraphs|
  {
    hide ByteLen, Trim, Blank, Bound, Extended, CarryOverlap, Flushes, CharApprox;
    TrimShortens(current);
    if paragraphs != [] {
      var p := paragraphs[0];
      assert p in paragraphs;
      ExtendedFits(current, p, maxTokens, overlap, longest);
      if Flushes(current, p, maxTokens, CharApprox) {
        CollectFits(Extended(CarryOverlap(current, overlap), p), paragraphs[1..], maxTokens, overlap, longest);
      } else {
        CollectFits(Extended(current, p), paragraphs[1..], maxTokens, overlap, longest);
      }
    }
  }

  /** No chunk returned for a body with text in it is longer than the token budget allows, or, where that
    * is more, than the overlap, the gap and the longest paragraph together; a blank body comes back. */
  lemma SemanticFits(body: string, maxTokens: nat, overlap: nat, longest: nat)
    requires forall p :: p in Paragraphs(body) ==> ByteLen(p) <= longest
    ensures
      var chunks := Semantic(body, maxTokens, overlap, CharApprox);
      if Blank(body) then chunks == [body]
      else forall c :: c in chunks ==> ByteLen(c) <= Bound(maxTokens, overlap, longest)
  {
    hide Paragraphs, Collect, Blank, Semantic, Bound;
    NothingFits(maxTokens, overlap, longest);
    SemanticExactly(body, maxTokens, overlap, CharApprox);
    CollectFits("", Paragraphs(body), maxTokens, overlap, longest);
  }

  lemma NothingFits(maxTokens: nat, overlap: nat, longest: nat)
    ensures ByteLen("") <= Bound(maxTokens, overlap, longest)
  {
  }

  // ----- Without overlap: a partition of the paragraphs

  /** Paragraphs with a gap between them. */
  function JoinedParagraphs(run: seq<string>): string {
    if run == [] then "" else if |run| == 1 then run[0] else JoinedParagraphs(run[..|run| - 1]) + GAP + run[|run| - 1]
  }

  function Flat(runs: seq<seq<string>>): seq<string> {
    if runs == [] then [] else runs[0] + Flat(runs[1..])
  }

  /** The text of each run, trimmed. */
  function RunTexts(runs: seq<seq<string>>): seq<string> {
    if runs == [] then [] else [Trim(JoinedParagraphs(runs[0]))] + RunTexts(runs[1..])
  }

  /** A run of several paragraphs is within the budget. */
  predicate RunFits(run: seq<string>, maxTokens: nat, count: Counter) {
    run != [] && (|run| > 1 ==> count(JoinedParagraphs(run)) <= maxTokens)
  }

  lemma JoinedSnoc(run: seq<string>, p: string)
    requires run != [] && JoinedParagraphs(run) != ""
    ensures JoinedParagraphs(run + [p]) == Extended(JoinedParagraphs(run), p)
  {
    assert (run + [p])[..|run|] == run;
  }

  lemma JoinedNotBlank(run: seq<string>)
    requires run != [] && forall p :: p in run ==> !Blank(p)
    ensures !Blank(JoinedParagraphs(run)) && JoinedParagraphs(run) != ""
  {
    hide Blank, IsWs;
    var last := run[|run| - 1];
    assert last in run;
    var all := JoinedParagraphs(run);
    BlankIsAllWs(last);
    BlankIsAllWs(all);
    var k :| 0 <= k < |last| && !IsWs(last[k]);
    assert all[|all| - |last| + k] == last[k];
  }

  /** The chunks from a run begun and the paragraphs to come. */
  lemma {:induction false} CollectRuns(run: seq<string>, paragraphs: seq<string>, maxTokens: nat, count: Counter)
    returns (runs: seq<seq<string>>)
    requires run != [] && RunFits(run, maxTokens, count)
    requires forall p :: p in run || p in paragraphs ==> !Blank(p)
    ensures Flat(runs) == run + paragraphs
    ensures RunTexts(runs) == Collect(JoinedParagraphs(run), paragraphs, maxTokens, 0, count)
    ensures forall r :: r in runs ==> RunFits(r, maxTokens, count)
    decreases |paragraphs|
  {
    hide Blank, Trim, JoinedParagraphs, RunFits;
    JoinedNotBlank(run);
    var current := JoinedParagraphs(run);
    if paragraphs == [] {
      runs := [run];
      assert runs[1..] == [];
      assert Flat(runs) == run + [];
      assert RunTexts(runs) == [Trim(current)] + [];
    } else {
      var p := paragraphs[0];
      assert p in paragraphs;
      assert paragraphs == [p] + paragraphs[1..];
      if Flushes(current, p, maxTokens, count) {
        FreshRun(p, maxTokens, count);
        var rest := CollectRuns([p], paragraphs[1..], maxTokens, count);
        runs := [run] + rest;
        assert runs[1..] == rest;
      } else {
        JoinedSnoc(run, p);
        LongerRun(run, p, maxTokens, count);
        runs := CollectRuns(run + [p], paragraphs[1..], maxTokens, count);
        assert run + [p] + paragraphs[1..] == run + paragraphs;
      }
    }
  }

  lemma FreshRun(p: string, maxTokens: nat, count: Counter)
    ensures RunFits([p], maxTokens, count) && JoinedParagraphs([p]) == p
  {
  }

  lemma LongerRun(run: seq<string>, p: string, maxTokens: nat, count: Counter)
    requires run != [] && JoinedParagraphs(run) != "" && !Flushes(JoinedParagraphs(run), p, maxTokens, count)
    ensures RunFits(run + [p], maxTokens, count)
  {
    JoinedSnoc(run, p);
  }

  lemma {:induction false} NonBlankOnly(parts: seq<string>)
    ensures forall p :: p in NonBlank(parts) ==> !Blank(p)
  {
    hide Blank;
    if parts != [] {
      NonBlankOnly(parts[1..]);
    }
  }

  /** Without overlap the chunks returned for a body with text in it are, in order, the trimmed texts of
    * consecutive runs that partition the paragraphs; a run of more than one is within the token budget. */
  lemma SemanticPartition(body: string, maxTokens: nat, count: Counter) returns (runs: seq<seq<string>>)
    ensures Flat(runs) == Paragraphs(body)
    ensures Semantic(body, maxTokens, 0, count) == if Blank(body) then [body] else RunTexts(runs)
    ensures forall r :: r in runs ==> RunFits(r, maxTokens, count)
  {
    hide Blank, Trim, RunFits, JoinedParagraphs, Split, Semantic;
    var paragraphs := Paragraphs(body);
    SemanticExactly(body, maxTokens, 0, count);
    ParagraphsExactly(body);
    NonBlankOnly(Split(body, GAP));
    if paragraphs == [] {
      runs := [];
    } else {
      FreshRun(paragraphs[0], maxTokens, count);
      runs := CollectRuns([paragraphs[0]], paragraphs[1..], maxTokens, count);
      assert [paragraphs[0]] + paragraphs[1..] == paragraphs;
    }
  }

  lemma EmptyIsBlank()
    ensures Blank("")
  {
  }
}
