/** Reciprocal rank fusion of the vector and the full-text hits (Cormack et al., SIGIR 2009), with scores
  * as real numbers. */
module RankFusion {
  import opened Ranking
  import FilterDsl

  datatype Candidate = Candidate(id: string, score: real, content: string, createdAt: int)

  const K: real := 60.0

  type Alpha = a: real | 0.0 <= a <= 1.0

  // ----- Scores

  /** What the hit at that rank adds. */
  function Term(weight: real, rank: nat): real {
    weight * (1.0 / (K + rank as real + 1.0))
  }

  /** The sum over the occurrences of an id, the first of `hits` having rank `rank`. */
  function Share(hits: seq<Candidate>, id: string, weight: real, rank: nat): real {
    if hits == [] then 0.0
    else (if hits[0].id == id then Term(weight, rank) else 0.0) + Share(hits[1..], id, weight, rank + 1)
  }

  /** The fused score of an id. */
  function Score(vec: seq<Candidate>, bm25: seq<Candidate>, alpha: real, id: string): real {
    Share(vec, id, alpha, 0) + Share(bm25, id, 1.0 - alpha, 0)
  }

  function Ids(hits: seq<Candidate>): set<string> {
    set k | 0 <= k < |hits| :: hits[k].id
  }

  /** The first hit of that id. */
  function First(hits: seq<Candidate>, id: string): Candidate
    requires id in Ids(hits)
  {
    if hits[0].id == id then hits[0] else assert hits[1..] != []; First(hits[1..], id)
  }

  // ----- Accumulating into two maps

  /** The score map holds the sums over the hits seen. */
  ghost predicate Sums(score: map<string, real>, vec: seq<Candidate>, bm25: seq<Candidate>, alpha: real) {
    && score.Keys == Ids(vec) + Ids(bm25)
    && forall id :: id in score ==> score[id] == Score(vec, bm25, alpha, id)
  }

  /** The candidate map holds the first hit of each id. */
  ghost predicate Firsts(m: map<string, Candidate>, hits: seq<Candidate>) {
    && m.Keys == Ids(hits)
    && forall id :: id in m ==> m[id] == First(hits, id)
  }

  lemma IdsSnoc(hits: seq<Candidate>, c: Candidate)
    ensures Ids(hits + [c]) == Ids(hits) + {c.id}
  {
    var more := hits + [c];
    assert more[|hits|] == c;
    forall id | id in Ids(hits) ensures id in Ids(more) {
      var k :| 0 <= k < |hits| && hits[k].id == id;
      assert more[k].id == id;
    }
  }

  lemma IdsTail(hits: seq<Candidate>)
    requires hits != []
    ensures Ids(hits) == {hits[0].id} + Ids(hits[1..])
  {
    forall id | id in Ids(hits) ensures id in {hits[0].id} + Ids(hits[1..]) {
      var k :| 0 <= k < |hits| && hits[k].id == id;
      if k > 0 {
        assert hits[1..][k - 1].id == id;
      }
    }
    forall id | id in Ids(hits[1..]) ensures id in Ids(hits) {
      var k :| 0 <= k < |hits[1..]| && hits[1..][k].id == id;
      assert hits[k + 1].id == id;
    }
  }

  lemma {:induction false} FirstSnoc(hits: seq<Candidate>, c: Candidate, id: string)
    requires id in Ids(hits) + {c.id}
    ensures id in Ids(hits + [c])
    ensures First(hits + [c], id) == if id in Ids(hits) then First(hits, id) else c
  {
    IdsSnoc(hits, c);
    if hits == [] {
    } else {
      IdsTail(hits);
      assert (hits + [c])[1..] == hits[1..] + [c];
      if hits[0].id != id {
        FirstSnoc(hits[1..], c, id);
      }
    }
  }

  lemma {:induction false} ShareSnoc(hits: seq<Candidate>, c: Candidate, id: string, weight: real, rank: nat)
    ensures Share(hits + [c], id, weight, rank) ==
            Share(hits, id, weight, rank) + (if c.id == id then Term(weight, rank + |hits|) else 0.0)
  {
    hide Term;
    if hits == [] {
      assert hits + [c] == [c];
    } else {
      ShareSnoc(hits[1..], c, id, weight, rank + 1);
      assert (hits + [c])[1..] == hits[1..] + [c];
    }
  }

  lemma {:induction false} ShareOfAbsent(hits: seq<Candidate>, id: string, weight: real, rank: nat)
    requires id !in Ids(hits)
    ensures Share(hits, id, weight, rank) == 0.0
  {
    if hits != [] {
      IdsTail(hits);
      ShareOfAbsent(hits[1..], id, weight, rank + 1);
    }
  }

  function Bumped(score: map<string, real>, id: string, add: real): map<string, real> {
    score[id := (if id in score then score[id] else 0.0) + add]
  }

  function Noted(m: map<string, Candidate>, c: Candidate): map<string, Candidate> {
    if c.id in m then m else m[c.id := c]
  }

  lemma NotesFirst(m: map<string, Candidate>, hits: seq<Candidate>, c: Candidate)
    requires Firsts(m, hits)
    ensures Firsts(Noted(m, c), hits + [c])
  {
    IdsSnoc(hits, c);
    forall id | id in Noted(m, c) ensures id in Ids(hits + [c]) && Noted(m, c)[id] == First(hits + [c], id) {
      FirstSnoc(hits, c, id);
    }
  }

  lemma BumpsVec(score: map<string, real>, vec: seq<Candidate>, alpha: real, c: Candidate)
    requires Sums(score, vec, [], alpha)
    ensures Sums(Bumped(score, c.id, Term(alpha, |vec|)), vec + [c], [], alpha)
  {
    hide Term;
    var next := Bumped(score, c.id, Term(alpha, |vec|));
    IdsSnoc(vec, c);
    forall id | id in next ensures next[id] == Score(vec + [c], [], alpha, id) {
      ShareSnoc(vec, c, id, alpha, 0);
      if id !in score {
        ShareOfAbsent(vec, id, alpha, 0);
      }
    }
  }

  lemma BumpsText(score: map<string, real>, vec: seq<Candidate>, bm25: seq<Candidate>, alpha: real, c: Candidate)
    requires Sums(score, vec, bm25, alpha)
    ensures Sums(Bumped(score, c.id, Term(1.0 - alpha, |bm25|)), vec, bm25 + [c], alpha)
  {
    hide Term;
    var next := Bumped(score, c.id, Term(1.0 - alpha, |bm25|));
    IdsSnoc(bm25, c);
    forall id | id in next ensures next[id] == Score(vec, bm25 + [c], alpha, id) {
      ShareSnoc(bm25, c, id, 1.0 - alpha, 0);
      if id !in score {
        ShareOfAbsent(vec, id, alpha, 0);
        ShareOfAbsent(bm25, id, 1.0 - alpha, 0);
      }
    }
  }

  // ----- The fusion

  /** The candidate of an id with its fused score. */
  function Fused(vec: seq<Candidate>, bm25: seq<Candidate>, alpha: real, id: string): Scored<Candidate>
    requires id in Ids(vec + bm25)
  {
    var s := Score(vec, bm25, alpha, id);
    Scored(s, First(vec + bm25, id).(score := s))
  }

  function FusedAll(vec: seq<Candidate>, bm25: seq<Candidate>, alpha: real, ids: seq<string>): seq<Scored<Candidate>>
    requires forall id :: id in ids ==> id in Ids(vec + bm25)
  {
    if ids == [] then [] else [Fused(vec, bm25, alpha, ids[0])] + FusedAll(vec, bm25, alpha, ids[1..])
  }

  lemma IdsJoin(a: seq<Candidate>, b: seq<Candidate>)
    ensures Ids(a + b) == Ids(a) + Ids(b)
  {
    var all := a + b;
    forall id | id in Ids(a) ensures id in Ids(all) {
      var k :| 0 <= k < |a| && a[k].id == id;
      assert all[k].id == id;
    }
    forall id | id in Ids(b) ensures id in Ids(all) {
      var k :| 0 <= k < |b| && b[k].id == id;
      assert all[|a| + k].id == id;
    }
  }

  /** `rrf_fuse`; `order` is the order in which the hash map gives its entries. */
  method RrfFuse(vec: seq<Candidate>, bm25: seq<Candidate>, alpha: real, order: FilterDsl.KeyOrder)
    returns (fused: seq<Scored<Candidate>>)
    requires FilterDsl.ProperOrder(order)
    ensures forall id :: id in order(Ids(vec + bm25)) ==> id in Ids(vec + bm25)
    ensures fused == Sorted(FusedAll(vec, bm25, alpha, order(Ids(vec + bm25))))
  {
    hide Term, Score, First, Ids, Sorted;
    var m: map<string, Candidate> := map[];
    var score: map<string, real> := map[];
    StartEmpty(alpha);
    for rank := 0 to |vec|
      invariant Firsts(m, vec[..rank]) && Sums(score, vec[..rank], [], alpha)
    {
      hide Firsts, Sums, Bumped, Noted;
      var c := vec[rank];
      NotesFirst(m, vec[..rank], c);
      BumpsVec(score, vec[..rank], alpha, c);
      assert vec[..rank] + [c] == vec[..rank + 1];
      score := Bumped(score, c.id, Term(alpha, rank));
      m := Noted(m, c);
    }
    assert vec[..|vec|] == vec;
    assert vec + [] == vec;
    for rank := 0 to |bm25|
      invariant Firsts(m, vec + bm25[..rank]) && Sums(score, vec, bm25[..rank], alpha)
    {
      hide Firsts, Sums, Bumped, Noted;
      var c := bm25[rank];
      NotesFirst(m, vec + bm25[..rank], c);
      BumpsText(score, vec, bm25[..rank], alpha, c);
      assert bm25[..rank] + [c] == bm25[..rank + 1];
      assert (vec + bm25[..rank]) + [c] == vec + bm25[..rank + 1];
      score := Bumped(score, c.id, Term(1.0 - alpha, rank));
      m := Noted(m, c);
    }
    assert bm25[..|bm25|] == bm25;
    IdsJoin(vec, bm25);
    fused := Collect(vec, bm25, alpha, m, score, order(m.Keys));
  }

  lemma StartEmpty(alpha: real)
    ensures Firsts(map[], []) && Sums(map[], [], [], alpha)
  {
  }

  /** The entries of the maps, sorted. */
  method Collect(vec: seq<Candidate>, bm25: seq<Candidate>, alpha: real, m: map<string, Candidate>,
                 score: map<string, real>, ids: seq<string>) returns (fused: seq<Scored<Candidate>>)
    requires Firsts(m, vec + bm25) && Sums(score, vec, bm25, alpha)
    requires forall id :: id in ids ==> id in m && id in score
    ensures fused == Sorted(FusedAll(vec, bm25, alpha, ids))
  {
    hide Score, First, Sorted;
    fused := [];
    for i := 0 to |ids|
      invariant fused + FusedAll(vec, bm25, alpha, ids[i..]) == FusedAll(vec, bm25, alpha, ids)
    {
      assert ids[i..][1..] == ids[i + 1..];
      assert ids[i] in ids;
      fused := fused + [Scored(score[ids[i]], m[ids[i]].(score := score[ids[i]]))];
    }
    assert fused + [] == fused;
    fused := Sorted(fused);
  }

  // ----- What the result is

  /** Each id once, with its score and its first candidate, best first. */
  ghost predicate Fuses(fused: seq<Scored<Candidate>>, vec: seq<Candidate>, bm25: seq<Candidate>, alpha: real) {
    && Descending(fused)
    && |fused| == |Ids(vec) + Ids(bm25)|
    && (forall id :: id in Ids(vec) + Ids(bm25) ==>
          exists k :: 0 <= k < |fused| && fused[k].item.id == id && fused[k].score == Score(vec, bm25, alpha, id))
    && forall k :: 0 <= k < |fused| ==>
         && fused[k].item.id in Ids(vec + bm25)
         && fused[k].score == fused[k].item.score
         && fused[k] == Fused(vec, bm25, alpha, fused[k].item.id)
  }

  lemma {:induction false} FirstHasId(hits: seq<Candidate>, id: string)
    requires id in Ids(hits)
    ensures First(hits, id).id == id && First(hits, id) in hits
  {
    IdsTail(hits);
    if hits[0].id != id {
      FirstHasId(hits[1..], id);
    }
  }

  lemma {:induction false} FusedMembers(vec: seq<Candidate>, bm25: seq<Candidate>, alpha: real, ids: seq<string>)
    requires forall id :: id in ids ==> id in Ids(vec + bm25)
    ensures |FusedAll(vec, bm25, alpha, ids)| == |ids|
    ensures forall id :: id in ids ==> Fused(vec, bm25, alpha, id) in FusedAll(vec, bm25, alpha, ids)
    ensures forall h :: h in FusedAll(vec, bm25, alpha, ids) ==>
              h.item.id in Ids(vec + bm25) && h.item.id in ids && h == Fused(vec, bm25, alpha, h.item.id)
  {
    hide Score, First, Ids;
    if ids != [] {
      assert ids[0] in ids;
      FirstHasId(vec + bm25, ids[0]);
      FusedMembers(vec, bm25, alpha, ids[1..]);
      assert ids == [ids[0]] + ids[1..];
    }
  }

  lemma {:induction false} EnumerationSize(keys: seq<string>, s: set<string>)
    requires FilterDsl.Enumerates(keys, s)
    ensures |keys| == |s|
  {
    if keys == [] {
      assert s == {};
    } else {
      assert keys[0] in keys;
      var rest := s - {keys[0]};
      assert FilterDsl.Enumerates(keys[1..], rest) by {
        forall k | k in rest ensures k in keys[1..] {
          assert k in keys;
        }
        forall k | k in keys[1..] ensures k in rest {
          var j :| 0 <= j < |keys[1..]| && keys[1..][j] == k;
          assert keys[j + 1] == k;
        }
      }
      EnumerationSize(keys[1..], rest);
    }
  }

  lemma FusedPlaces(fused: seq<Scored<Candidate>>, vec: seq<Candidate>, bm25: seq<Candidate>, alpha: real)
    requires forall id :: id in Ids(vec + bm25) ==> Fused(vec, bm25, alpha, id) in fused
    requires forall h :: h in fused ==> h.item.id in Ids(vec + bm25) && h == Fused(vec, bm25, alpha, h.item.id)
    ensures forall id :: id in Ids(vec + bm25) ==>
              exists k :: 0 <= k < |fused| && fused[k].item.id == id && fused[k].score == Score(vec, bm25, alpha, id)
    ensures forall k :: 0 <= k < |fused| ==>
              && fused[k].item.id in Ids(vec + bm25)
              && fused[k].score == fused[k].item.score
              && fused[k] == Fused(vec, bm25, alpha, fused[k].item.id)
  {
    hide Score, First, Ids;
    forall id | id in Ids(vec + bm25)
      ensures exists k :: 0 <= k < |fused| && fused[k].item.id == id && fused[k].score == Score(vec, bm25, alpha, id)
    {
      FirstHasId(vec + bm25, id);
      var k :| 0 <= k < |fused| && fused[k] == Fused(vec, bm25, alpha, id);
    }
    forall k | 0 <= k < |fused|
      ensures fused[k].item.id in Ids(vec + bm25) && fused[k] == Fused(vec, bm25, alpha, fused[k].item.id)
    {
      assert fused[k] in fused;
    }
  }

  /** The result holds each id of the two lists exactly once, with the closed-form score, in descending
    * order. */
  lemma FuseExact(vec: seq<Candidate>, bm25: seq<Candidate>, alpha: real, order: FilterDsl.KeyOrder)
    requires FilterDsl.ProperOrder(order)
    ensures forall id :: id in order(Ids(vec + bm25)) ==> id in Ids(vec + bm25)
    ensures Fuses(Sorted(FusedAll(vec, bm25, alpha, order(Ids(vec + bm25)))), vec, bm25, alpha)
  {
    hide Score, First, Ids, Sorted, Fused, FusedAll, Descending;
    var ids := order(Ids(vec + bm25));
    assert FilterDsl.Enumerates(ids, Ids(vec + bm25));
    var all := FusedAll(vec, bm25, alpha, ids);
    FusedMembers(vec, bm25, alpha, ids);
    SortedSorts(all);
    SameMembers(Sorted(all), all);
    EnumerationSize(ids, Ids(vec + bm25));
    IdsJoin(vec, bm25);
    FusedPlaces(Sorted(all), vec, bm25, alpha);
  }

  /** Where an id stands only once in a list, it has that rank's share. */
  lemma {:induction false} ShareOfRank(hits: seq<Candidate>, k: nat, weight: real, rank: nat)
    requires k < |hits| && forall j :: 0 <= j < |hits| && j != k ==> hits[j].id != hits[k].id
    ensures Share(hits, hits[k].id, weight, rank) == Term(weight, rank + k)
  {
    hide Term;
    if k == 0 {
      forall j | 0 <= j < |hits[1..]| ensures hits[1..][j].id != hits[0].id {
        assert hits[1..][j] == hits[j + 1];
      }
      ShareOfAbsent(hits[1..], hits[0].id, weight, rank + 1);
    } else {
      assert hits[1..][k - 1] == hits[k];
      forall j | 0 <= j < |hits[1..]| && j != k - 1 ensures hits[1..][j].id != hits[k].id {
        assert hits[1..][j] == hits[j + 1];
      }
      ShareOfRank(hits[1..], k - 1, weight, rank + 1);
    }
  }

  /** The reciprocal ranks: an id at place `i` of the one list and place `j` of the other, counted from one, scores
    * alpha/(60+i) + (1-alpha)/(60+j). */
  lemma ScoreOfRanks(vec: seq<Candidate>, bm25: seq<Candidate>, alpha: real, i: nat, j: nat)
    requires 1 <= i <= |vec| && 1 <= j <= |bm25| && vec[i - 1].id == bm25[j - 1].id
    requires forall k :: 0 <= k < |vec| && k != i - 1 ==> vec[k].id != vec[i - 1].id
    requires forall k :: 0 <= k < |bm25| && k != j - 1 ==> bm25[k].id != bm25[j - 1].id
    ensures Score(vec, bm25, alpha, vec[i - 1].id) == alpha * (1.0 / (60.0 + i as real)) + (1.0 - alpha) * (1.0 / (60.0 + j as real))
  {
    ShareOfRank(vec, i - 1, alpha, 0);
    ShareOfRank(bm25, j - 1, 1.0 - alpha, 0);
    TermOfPlace(alpha, i);
    TermOfPlace(1.0 - alpha, j);
    hide Term, Share;
  }

  lemma TermOfPlace(weight: real, place: nat)
    requires place >= 1
    ensures Term(weight, place - 1) == weight * (1.0 / (60.0 + place as real))
  {
    assert K + (place - 1) as real + 1.0 == 60.0 + place as real;
  }

  /** An id in one list only has that list's share. */
  lemma ScoreOfOne(vec: seq<Candidate>, bm25: seq<Candidate>, alpha: real, i: nat)
    requires 1 <= i <= |vec| && vec[i - 1].id !in Ids(bm25)
    requires forall k :: 0 <= k < |vec| && k != i - 1 ==> vec[k].id != vec[i - 1].id
    ensures Score(vec, bm25, alpha, vec[i - 1].id) == alpha * (1.0 / (60.0 + i as real))
    ensures Score(bm25, vec, alpha, vec[i - 1].id) == (1.0 - alpha) * (1.0 / (60.0 + i as real))
  {
    ShareOfRank(vec, i - 1, alpha, 0);
    ShareOfRank(vec, i - 1, 1.0 - alpha, 0);
    ShareOfAbsent(bm25, vec[i - 1].id, alpha, 0);
    ShareOfAbsent(bm25, vec[i - 1].id, 1.0 - alpha, 0);
    TermOfPlace(alpha, i);
    TermOfPlace(1.0 - alpha, i);
    hide Term, Share, Ids;
  }

  /** An id in both lists keeps the text and date of its vector hit. */
  lemma {:induction false} VectorHitWins(vec: seq<Candidate>, bm25: seq<Candidate>, id: string)
    requires id in Ids(vec) + Ids(bm25)
    ensures id in Ids(vec + bm25)
    ensures First(vec + bm25, id) == if id in Ids(vec) then First(vec, id) else First(bm25, id)
  {
    IdsJoin(vec, bm25);
    if vec == [] {
      assert vec + bm25 == bm25;
    } else {
      IdsTail(vec);
      assert (vec + bm25)[1..] == vec[1..] + bm25;
      if vec[0].id != id {
        VectorHitWins(vec[1..], bm25, id);
      }
    }
  }

  // ----- Agreement of the two rankings

  predicate NoRepeats(hits: seq<Candidate>) {
    forall i, j :: 0 <= i < j < |hits| ==> hits[i].id != hits[j].id
  }

  /** `a` is in the list, and `b` further down or not at all. */
  predicate Above(hits: seq<Candidate>, a: string, b: string) {
    exists i :: 0 <= i < |hits| && hits[i].id == a && forall j :: 0 <= j <= i ==> hits[j].id != b
  }

  lemma {:induction false} ShareAt(hits: seq<Candidate>, i: nat, weight: real, rank: nat)
    requires NoRepeats(hits) && i < |hits|
    ensures Share(hits, hits[i].id, weight, rank) == Term(weight, rank + i)
  {
    hide Term;
    if i == 0 {
      forall k | 0 <= k < |hits[1..]| ensures hits[1..][k].id != hits[0].id {
        assert hits[1..][k] == hits[k + 1];
      }
      ShareOfAbsent(hits[1..], hits[0].id, weight, rank + 1);
    } else {
      assert NoRepeats(hits[1..]);
      ShareAt(hits[1..], i - 1, weight, rank + 1);
      assert hits[1..][i - 1] == hits[i];
    }
  }

  /** An id's reciprocal rank in a list, before weighting. */
  function Reciprocal(hits: seq<Candidate>, id: string): real {
    Share(hits, id, 1.0, 0)
  }

  lemma {:induction false} ShareScales(hits: seq<Candidate>, id: string, weight: real, rank: nat)
    ensures Share(hits, id, weight, rank) == weight * Share(hits, id, 1.0, rank)
  {
    if hits != [] {
      ShareScales(hits[1..], id, weight, rank + 1);
      var rest := Share(hits[1..], id, 1.0, rank + 1);
      var t := 1.0 / (K + rank as real + 1.0);
      assert weight * (t + rest) == weight * t + weight * rest;
    }
  }

  lemma TermFalls(i: nat, j: nat)
    requires i < j
    ensures Term(1.0, i) > Term(1.0, j) > 0.0
  {
    var x, y := K + i as real + 1.0, K + j as real + 1.0;
    assert 0.0 < x < y;
    var p, q := 1.0 / x, 1.0 / y;
    assert p * x == 1.0 && q * y == 1.0;
    assert q > 0.0;
    assert p > q by {
      if p <= q {
        Products(p, q, x, y);
      }
    }
  }

  lemma Products(p: real, q: real, x: real, y: real)
    requires 0.0 < x < y && q > 0.0 && p <= q
    ensures p * x < q * y
  {
    assert p * x <= q * x;
    assert q * x < q * y;
  }

  lemma AboveIsMore(hits: seq<Candidate>, a: string, b: string)
    requires NoRepeats(hits) && Above(hits, a, b)
    ensures Reciprocal(hits, a) > Reciprocal(hits, b)
  {
    hide Term;
    var i: nat :| i < |hits| && hits[i].id == a && forall j :: 0 <= j <= i ==> hits[j].id != b;
    ShareAt(hits, i, 1.0, 0);
    TermFalls(i, i + 1);
    if b in Ids(hits) {
      var j: nat :| j < |hits| && hits[j].id == b;
      ShareAt(hits, j, 1.0, 0);
      TermFalls(i, j);
    } else {
      ShareOfAbsent(hits, b, 1.0, 0);
    }
  }

  lemma Blend(alpha: Alpha, a1: real, a2: real, b1: real, b2: real)
    requires a1 > b1 && a2 > b2
    ensures alpha * a1 + (1.0 - alpha) * a2 > alpha * b1 + (1.0 - alpha) * b2
  {
    var d := if a1 - b1 < a2 - b2 then a1 - b1 else a2 - b2;
    assert alpha * (a1 - b1) >= alpha * d;
    assert (1.0 - alpha) * (a2 - b2) >= (1.0 - alpha) * d;
    assert alpha * d + (1.0 - alpha) * d == d;
  }

  /** An id both rankings put above another scores strictly higher, whatever the blend. */
  lemma BothAboveScoresMore(vec: seq<Candidate>, bm25: seq<Candidate>, alpha: Alpha, a: string, b: string)
    requires NoRepeats(vec) && NoRepeats(bm25) && Above(vec, a, b) && Above(bm25, a, b)
    ensures Score(vec, bm25, alpha, a) > Score(vec, bm25, alpha, b)
  {
    hide Share, NoRepeats, Above;
    AboveIsMore(vec, a, b);
    AboveIsMore(bm25, a, b);
    ShareScales(vec, a, alpha, 0);
    ShareScales(vec, b, alpha, 0);
    ShareScales(bm25, a, 1.0 - alpha, 0);
    ShareScales(bm25, b, 1.0 - alpha, 0);
    Blend(alpha, Reciprocal(vec, a), Reciprocal(bm25, a), Reciprocal(vec, b), Reciprocal(bm25, b));
  }

  /** And so it comes first in the fused list. */
  lemma BothAboveComesFirst(vec: seq<Candidate>, bm25: seq<Candidate>, alpha: Alpha, fused: seq<Scored<Candidate>>,
                            i: nat, j: nat)
    requires Fuses(fused, vec, bm25, alpha) && i < |fused| && j < |fused|
    requires NoRepeats(vec) && NoRepeats(bm25)
    requires Above(vec, fused[i].item.id, fused[j].item.id) && Above(bm25, fused[i].item.id, fused[j].item.id)
    ensures i < j
  {
    hide Score, NoRepeats, Above, First, Ids;
    BothAboveScoresMore(vec, bm25, alpha, fused[i].item.id, fused[j].item.id);
  }
}
