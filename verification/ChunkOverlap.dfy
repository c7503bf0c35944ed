/** The semantic strategy with overlap: each chunk begins with the end of the one before it. */
module ChunkOverlap {
  import opened Text
  import opened Utf8
  import opened Chunking

  /** `t` is the longest end of `s` of at most so many bytes. */
  predicate LongestEnd(t: string, s: string, bytes: nat) {
    && |t| <= |s| && t == s[|s| - |t|..] && ByteLen(t) <= bytes
    && (|t| < |s| ==> ByteLen(s[|s| - |t| - 1..]) > bytes)
  }

  /** What the next chunk takes over from the text of this one: four bytes for each token of overlap. */
  predicate Carried(head: string, text: string, overlap: nat) {
    if overlap == 0 then head == "" else LongestEnd(head, text, 4 * overlap)
  }

  /** The paragraphs of a run behind what was taken over. */
  function Continued(head: string, run: seq<string>): string {
    if head == "" then JoinedParagraphs(run) else head + "\n\n" + JoinedParagraphs(run)
  }

  /** The texts of the runs, each behind what it takes over from the one before. */
  ghost predicate Overlapping(head: string, runs: seq<seq<string>>, texts: seq<string>, overlap: nat)
    decreases |runs|
  {
    && |runs| == |texts|
    && (runs != [] ==>
          && texts[0] == Continued(head, runs[0])
          && exists next :: Carried(next, texts[0], overlap) && Overlapping(next, runs[1..], texts[1..], overlap))
  }

  function Trimmed(texts: seq<string>): seq<string> {
    if texts == [] then [] else [Trim(texts[0])] + Trimmed(texts[1..])
  }

  /** Only a run's first paragraph may take the text beyond the budget. */
  predicate Within(runs: seq<seq<string>>, texts: seq<string>, maxTokens: nat, count: Counter)
    requires |runs| == |texts|
  {
    forall k :: 0 <= k < |runs| ==> runs[k] != [] && (|runs[k]| > 1 ==> count(texts[k]) <= maxTokens)
  }

  lemma CarriesEnd(text: string, overlap: nat)
    ensures Carried(CarryOverlap(text, overlap), text, overlap)
  {
  }

  lemma ContinuedSnoc(head: string, run: seq<string>, p: string)
    requires run != [] && JoinedParagraphs(run) != ""
    ensures Continued(head, run) != "" && Continued(head, run + [p]) == Extended(Continued(head, run), p)
  {
    JoinedSnoc(run, p);
    hide JoinedParagraphs;
  }

  lemma ContinuedFirst(head: string, p: string)
    ensures Continued(head, [p]) == Extended(head, p)
  {
    FreshRun(p, 0, CharApprox);
    hide JoinedParagraphs;
  }

  lemma ContinuedNotBlank(head: string, run: seq<string>)
    requires run != [] && forall p :: p in run ==> !Blank(p)
    ensures JoinedParagraphs(run) != "" && !Blank(Continued(head, run))
  {
    JoinedNotBlank(run);
    hide JoinedParagraphs;
    ExtendedNotBlank(head, JoinedParagraphs(run));
    hide Blank;
  }

  lemma OneOverlaps(head: string, run: seq<string>, overlap: nat)
    ensures Overlapping(head, [run], [Continued(head, run)], overlap)
  {
    var text := Continued(head, run);
    CarriesEnd(text, overlap);
    hide Carried, Continued;
    var runs, texts := [run], [text];
    assert runs[1..] == [] && texts[1..] == [];
  }

  lemma MoreOverlaps(head: string, run: seq<string>, next: string, runs: seq<seq<string>>, texts: seq<string>, overlap: nat)
    requires Carried(next, Continued(head, run), overlap) && Overlapping(next, runs, texts, overlap)
    ensures Overlapping(head, [run] + runs, [Continued(head, run)] + texts, overlap)
  {
    hide Carried, Continued;
    var runs', texts' := [run] + runs, [Continued(head, run)] + texts;
    assert runs'[1..] == runs && texts'[1..] == texts;
  }

  /** The chunks from a run begun behind what it takes over, and the paragraphs to come. */
  lemma {:induction false} CollectOverlaps(head: string, run: seq<string>, paragraphs: seq<string>, maxTokens: nat,
                                           overlap: nat, count: Counter)
    returns (runs: seq<seq<string>>, texts: seq<string>)
    requires run != [] && (|run| > 1 ==> count(Continued(head, run)) <= maxTokens)
    requires forall p :: p in run || p in paragraphs ==> !Blank(p)
    ensures Flat(runs) == run + paragraphs && Overlapping(head, runs, texts, overlap)
    ensures Trimmed(texts) == Collect(Continued(head, run), paragraphs, maxTokens, overlap, count)
    ensures |runs| == |texts| && Within(runs, texts, maxTokens, count)
    decreases |paragraphs|
  {
    hide Blank, Trim, JoinedParagraphs, Continued, Carried, Overlapping, CarryOverlap, Collect, Flat, Trimmed, Flushes,
      Within, Extended;
    ContinuedNotBlank(head, run);
    var current := Continued(head, run);
    if paragraphs == [] {
      runs, texts := [run], [current];
      OneOverlaps(head, run, overlap);
      OneWithin(run, current, maxTokens, count);
      EndCollected(run, current, maxTokens, overlap, count);
    } else {
      var p := paragraphs[0];
      assert p in paragraphs;
      assert paragraphs == [p] + paragraphs[1..];
      NextCollected(current, paragraphs, maxTokens, overlap, count);
      if Flushes(current, p, maxTokens, count) {
        var next := CarryOverlap(current, overlap);
        CarriesEnd(current, overlap);
        ContinuedFirst(next, p);
        var runs', texts' := CollectOverlaps(next, [p], paragraphs[1..], maxTokens, overlap, count);
        MoreOverlaps(head, run, next, runs', texts', overlap);
        runs, texts := [run] + runs', [current] + texts';
        FirstCollected(run, current, runs', texts');
        MoreWithin(run, current, runs', texts', maxTokens, count);
      } else {
        ContinuedSnoc(head, run, p);
        FlushMeans(current, p, maxTokens, count);
        ExtendedMeans(current, p);
        runs, texts := CollectOverlaps(head, run + [p], paragraphs[1..], maxTokens, overlap, count);
        assert run + [p] + paragraphs[1..] == run + paragraphs;
      }
    }
  }

  lemma OneWithin(run: seq<string>, text: string, maxTokens: nat, count: Counter)
    requires run != [] && (|run| > 1 ==> count(text) <= maxTokens)
    ensures Within([run], [text], maxTokens, count)
  {
  }

  lemma MoreWithin(run: seq<string>, text: string, runs: seq<seq<string>>, texts: seq<string>, maxTokens: nat,
                   count: Counter)
    requires |runs| == |texts| && Within(runs, texts, maxTokens, count)
    requires run != [] && (|run| > 1 ==> count(text) <= maxTokens)
    ensures Within([run] + runs, [text] + texts, maxTokens, count)
  {
  }

  lemma EndCollected(run: seq<string>, current: string, maxTokens: nat, overlap: nat, count: Counter)
    requires !Blank(current)
    ensures Flat([run]) == run + [] && Trimmed([current]) == Collect(current, [], maxTokens, overlap, count)
  {
    hide Blank, Trim;
    assert [run][1..] == [] && [current][1..] == [];
    assert Trimmed([current]) == [Trim(current)] + [];
  }

  lemma NextCollected(current: string, paragraphs: seq<string>, maxTokens: nat, overlap: nat, count: Counter)
    requires paragraphs != []
    ensures Collect(current, paragraphs, maxTokens, overlap, count) ==
            if Flushes(current, paragraphs[0], maxTokens, count) then
              [Trim(current)] + Collect(Extended(CarryOverlap(current, overlap), paragraphs[0]), paragraphs[1..], maxTokens,
                                        overlap, count)
            else Collect(Extended(current, paragraphs[0]), paragraphs[1..], maxTokens, overlap, count)
  {
    hide Blank, Trim, CarryOverlap, Flushes, Extended;
  }

  lemma FirstCollected(run: seq<string>, current: string, runs: seq<seq<string>>, texts: seq<string>)
    ensures Flat([run] + runs) == run + Flat(runs) && Trimmed([current] + texts) == [Trim(current)] + Trimmed(texts)
  {
    hide Trim;
    assert ([run] + runs)[1..] == runs && ([current] + texts)[1..] == texts;
  }

  /** For any overlap, the chunks returned for a body with text in it are, in order, the trimmed texts of consecutive
    * runs that partition the paragraphs, each behind the longest end of the text before it that the overlap allows;
    * a text of several paragraphs is within the token budget. */
  lemma SemanticOverlaps(body: string, maxTokens: nat, overlap: nat, count: Counter)
    returns (runs: seq<seq<string>>, texts: seq<string>)
    requires !Blank(body)
    ensures Flat(runs) == Paragraphs(body) && Overlapping("", runs, texts, overlap)
    ensures Semantic(body, maxTokens, overlap, count) == Trimmed(texts)
    ensures |runs| == |texts| && Within(runs, texts, maxTokens, count)
  {
    hide Blank, Trim, JoinedParagraphs, Split, Semantic, Overlapping, Within;
    var paragraphs := Paragraphs(body);
    SemanticExactly(body, maxTokens, overlap, count);
    ParagraphsExactly(body);
    NonBlankOnly(Split(body, GAP));
    ContinuedFirst("", paragraphs[0]);
    assert [paragraphs[0]] + paragraphs[1..] == paragraphs;
    runs, texts := CollectOverlaps("", [paragraphs[0]], paragraphs[1..], maxTokens, overlap, count);
    assert Extended("", paragraphs[0]) == paragraphs[0];
    FromStart(paragraphs, maxTokens, overlap, count);
  }

  lemma FromStart(paragraphs: seq<string>, maxTokens: nat, overlap: nat, count: Counter)
    requires paragraphs != []
    ensures Collect("", paragraphs, maxTokens, overlap, count) ==
            Collect(paragraphs[0], paragraphs[1..], maxTokens, overlap, count)
  {
    hide Trim, Blank, CarryOverlap;
  }
}
