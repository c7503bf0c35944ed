/** The in-memory vector store: collections as lists of chunks updated in place, refining a map from id to
  * chunk, and linear search for the best matches. */
module VectorStore {
  import opened Wrappers
  import opened Ranking
  import FilterDsl
  import FilterProofs

  datatype Chunk = Chunk(id: nat, content: string, embedding: seq<real>, metadata: FilterDsl.Metadata)

  datatype Distance = Cosine | Dot | Euclidean

  datatype Collection = Collection(dims: nat, distance: Distance, chunks: seq<Chunk>)

  type Store = map<string, Collection>

  datatype Op =
    | Ensure(name: string, dims: nat, distance: Distance)
    | Upsert(name: string, chunks: seq<Chunk>)
    | Delete(name: string, ids: seq<nat>)
    | Drop(name: string)

  datatype Out = Done | NotFound | BadDims

  // ----- The lists

  /** The first chunk of that id replaced in place, or the chunk appended. */
  function Put(chunks: seq<Chunk>, c: Chunk): (r: seq<Chunk>)
  {
    if chunks == [] then [c]
    else if chunks[0].id == c.id then [c] + chunks[1..]
    else [chunks[0]] + Put(chunks[1..], c)
  }

  /** Chunk by chunk, up to the first one of the wrong dimension. */
  function PutAll(dims: nat, chunks: seq<Chunk>, more: seq<Chunk>): (seq<Chunk>, Out)
    decreases |more|
  {
    if more == [] then (chunks, Done)
    else if |more[0].embedding| != dims then (chunks, BadDims)
    else PutAll(dims, Put(chunks, more[0]), more[1..])
  }

  function Without(chunks: seq<Chunk>, ids: seq<nat>): seq<Chunk> {
    if chunks == [] then [] else (if chunks[0].id in ids then [] else [chunks[0]]) + Without(chunks[1..], ids)
  }

  function Apply(s: Store, op: Op): (Store, Out) {
    match op
    case Ensure(name, dims, distance) =>
      if name in s then (s, if s[name].dims != dims then BadDims else Done)
      else (s[name := Collection(dims, distance, [])], Done)
    case Upsert(name, chunks) =>
      if name !in s then (s, NotFound)
      else
        var (stored, out) := PutAll(s[name].dims, s[name].chunks, chunks);
        (s[name := s[name].(chunks := stored)], out)
    case Delete(name, ids) =>
      if ids == [] then (s, Done)
      else if name !in s then (s, NotFound)
      else (s[name := s[name].(chunks := Without(s[name].chunks, ids))], Done)
    case Drop(name) => (s - {name}, Done)
  }

  // ----- The store in place

  class InMemoryStore {
    var collections: map<string, Collection>

    constructor ()
      ensures collections == map[]
    {
      collections := map[];
    }

    method EnsureCollection(name: string, dims: nat, distance: Distance) returns (out: Out)
      modifies this
      ensures (collections, out) == Apply(old(collections), Ensure(name, dims, distance))
    {
      if name in collections {
        if collections[name].dims != dims {
          return BadDims;
        }
        return Done;
      }
      collections := collections[name := Collection(dims, distance, [])];
      return Done;
    }

    method UpsertChunks(name: string, chunks: seq<Chunk>) returns (out: Out)
      modifies this
      ensures (collections, out) == Apply(old(collections), Upsert(name, chunks))
    {
      hide Put;
      if name !in collections {
        return NotFound;
      }
      var dims := collections[name].dims;
      for i := 0 to |chunks|
        invariant name in collections
        invariant collections == old(collections)[name := collections[name]]
        invariant collections[name] == old(collections[name]).(chunks := collections[name].chunks)
        invariant PutAll(dims, collections[name].chunks, chunks[i..]) == PutAll(dims, old(collections[name].chunks), chunks)
      {
        assert chunks[i..][1..] == chunks[i + 1..];
        if |chunks[i].embedding| != dims {
          return BadDims;
        }
        var entry := collections[name];
        var updated := Place(entry.chunks, chunks[i]);
        collections := collections[name := entry.(chunks := updated)];
      }
      return Done;
    }

    /** Exactly the chunks of the given ids go, whatever the collection held; nothing else changes. */
    method DeleteChunks(name: string, ids: seq<nat>) returns (out: Out)
      modifies this
      ensures (collections, out) == Apply(old(collections), Delete(name, ids))
      ensures out == NotFound <==> ids != [] && name !in old(collections)
      ensures collections.Keys == old(collections).Keys
      ensures forall other :: other in collections && other != name ==> collections[other] == old(collections)[other]
      ensures name in collections ==>
                forall c :: c in collections[name].chunks <==> c in old(collections)[name].chunks && c.id !in ids
    {
      if ids == [] {
        return Done;
      }
      if name !in collections {
        return NotFound;
      }
      var idSet := IdSet(ids);
      var entry := collections[name];
      var kept: seq<Chunk> := [];
      for i := 0 to |entry.chunks|
        invariant kept + Without(entry.chunks[i..], ids) == Without(entry.chunks, ids)
      {
        assert entry.chunks[i..][1..] == entry.chunks[i + 1..];
        if entry.chunks[i].id !in idSet {
          kept := kept + [entry.chunks[i]];
        }
      }
      assert kept + [] == kept;
      WithoutExactly(entry.chunks, ids);
      collections := collections[name := entry.(chunks := kept)];
      return Done;
    }

    method DropCollection(name: string)
      modifies this
      ensures (collections, Done) == Apply(old(collections), Drop(name))
    {
      collections := collections - {name};
    }

    method Count(name: string) returns (n: Option<nat>)
      ensures n == if name in collections then Some(|collections[name].chunks|) else None
    {
      if name !in collections {
        return None;
      }
      return Some(|collections[name].chunks|);
    }

    method Search(name: string, sqrt: real -> real, order: FilterDsl.KeyOrder, query: seq<real>, topK: nat,
                  filter: Option<FilterDsl.Json>) returns (found: Found)
      requires FilterDsl.ProperOrder(order)
      ensures found == if name in collections then Best(collections[name], sqrt, order, query, topK, filter) else Missing
    {
      if name !in collections {
        return Missing;
      }
      var entry := collections[name];
      if |query| != entry.dims {
        return WrongDims;
      }
      var typed := TypedFilter(order, filter);
      var scored: seq<Scored<Chunk>> := [];
      for i := 0 to |entry.chunks|
        invariant scored + ScoredMatches(entry, sqrt, query, typed, entry.chunks[i..]) ==
                  ScoredMatches(entry, sqrt, query, typed, entry.chunks)
      {
        hide Similarity, Selected;
        assert entry.chunks[i..][1..] == entry.chunks[i + 1..];
        if Selected(typed, entry.chunks[i]) {
          scored := scored + [Scored(Similarity(sqrt, entry.distance, query, entry.chunks[i].embedding), entry.chunks[i])];
        }
      }
      assert scored + [] == scored;
      return Hits(Truncated(Sorted(scored), topK));
    }
  }

  /** The search for an id to replace, and the replacement. */
  method Place(chunks: seq<Chunk>, c: Chunk) returns (r: seq<Chunk>)
    ensures r == Put(chunks, c)
  {
    for i := 0 to |chunks|
      invariant forall k :: 0 <= k < i ==> chunks[k].id != c.id
    {
      if chunks[i].id == c.id {
        PutsAt(chunks, c, i);
        return chunks[i := c];
      }
    }
    PutsLast(chunks, c);
    return chunks + [c];
  }

  lemma {:induction false} PutsAt(chunks: seq<Chunk>, c: Chunk, i: nat)
    requires i < |chunks| && chunks[i].id == c.id && forall k :: 0 <= k < i ==> chunks[k].id != c.id
    ensures Put(chunks, c) == chunks[i := c]
    decreases i
  {
    if i > 0 {
      PutsAt(chunks[1..], c, i - 1);
    }
  }

  lemma {:induction false} PutsLast(chunks: seq<Chunk>, c: Chunk)
    requires forall k :: 0 <= k < |chunks| ==> chunks[k].id != c.id
    ensures Put(chunks, c) == chunks + [c]
  {
    if chunks != [] {
      PutsLast(chunks[1..], c);
    }
  }

  // ----- The map it refines

  datatype Content = Content(dims: nat, distance: Distance, byId: map<nat, Chunk>)

  function IdMap(chunks: seq<Chunk>): map<nat, Chunk> {
    if chunks == [] then map[] else IdMap(chunks[1..])[chunks[0].id := chunks[0]]
  }

  predicate UniqueIds(chunks: seq<Chunk>) {
    forall i, j :: 0 <= i < j < |chunks| ==> chunks[i].id != chunks[j].id
  }

  predicate ValidCollection(c: Collection) {
    UniqueIds(c.chunks) && forall k :: 0 <= k < |c.chunks| ==> |c.chunks[k].embedding| == c.dims
  }

  predicate Valid(s: Store) {
    forall name :: name in s ==> ValidCollection(s[name])
  }

  function ContentOf(c: Collection): Content {
    Content(c.dims, c.distance, IdMap(c.chunks))
  }

  function View(s: Store): map<string, Content> {
    map name | name in s :: ContentOf(s[name])
  }

  /** The chunks an upsert accepts: those before the first of the wrong dimension. */
  function Accepted(dims: nat, chunks: seq<Chunk>): seq<Chunk> {
    if chunks == [] || |chunks[0].embedding| != dims then [] else [chunks[0]] + Accepted(dims, chunks[1..])
  }

  /** Later chunks override earlier ones of the same id. */
  function Overridden(m: map<nat, Chunk>, chunks: seq<Chunk>): map<nat, Chunk>
    decreases |chunks|
  {
    if chunks == [] then m else Overridden(m[chunks[0].id := chunks[0]], chunks[1..])
  }

  function IdSet(ids: seq<nat>): set<nat> {
    set id | id in ids
  }

  /** The same operations on maps. */
  function MapApply(m: map<string, Content>, op: Op): (map<string, Content>, Out) {
    match op
    case Ensure(name, dims, distance) =>
      if name in m then (m, if m[name].dims != dims then BadDims else Done)
      else (m[name := Content(dims, distance, map[])], Done)
    case Upsert(name, chunks) =>
      if name !in m then (m, NotFound)
      else
        var good := Accepted(m[name].dims, chunks);
        (m[name := m[name].(byId := Overridden(m[name].byId, good))], if |good| == |chunks| then Done else BadDims)
    case Delete(name, ids) =>
      if ids == [] then (m, Done)
      else if name !in m then (m, NotFound)
      else (m[name := m[name].(byId := m[name].byId - IdSet(ids))], Done)
    case Drop(name) => (m - {name}, Done)
  }

  lemma {:induction false} IdMapMember(chunks: seq<Chunk>)
    requires UniqueIds(chunks)
    ensures forall id :: id in IdMap(chunks) <==> exists k :: 0 <= k < |chunks| && chunks[k].id == id
    ensures forall k :: 0 <= k < |chunks| ==> IdMap(chunks)[chunks[k].id] == chunks[k]
    ensures |IdMap(chunks)| == |chunks|
  {
    if chunks != [] {
      IdMapMember(chunks[1..]);
      forall k | 0 <= k < |chunks[1..]| ensures chunks[1..][k].id != chunks[0].id {
        assert chunks[k + 1] == chunks[1..][k];
      }
      assert chunks[0].id !in IdMap(chunks[1..]);
    }
  }

  lemma {:induction false} PutKeys(chunks: seq<Chunk>, c: Chunk)
    ensures forall k :: 0 <= k < |Put(chunks, c)| ==>
              Put(chunks, c)[k].id == c.id || exists j :: 0 <= j < |chunks| && chunks[j] == Put(chunks, c)[k]
  {
    if chunks != [] && chunks[0].id != c.id {
      PutKeys(chunks[1..], c);
      assert chunks == [chunks[0]] + chunks[1..];
    }
  }

  lemma {:induction false} PutIdMap(chunks: seq<Chunk>, c: Chunk)
    ensures IdMap(Put(chunks, c)) == IdMap(chunks)[c.id := c]
  {
    if chunks != [] {
      if chunks[0].id == c.id {
        assert ([c] + chunks[1..])[1..] == chunks[1..];
      } else {
        PutIdMap(chunks[1..], c);
        assert ([chunks[0]] + Put(chunks[1..], c))[1..] == Put(chunks[1..], c);
      }
    }
  }

  lemma {:induction false} PutValid(dims: nat, distance: Distance, chunks: seq<Chunk>, c: Chunk)
    requires ValidCollection(Collection(dims, distance, chunks)) && |c.embedding| == dims
    ensures ValidCollection(Collection(dims, distance, Put(chunks, c)))
  {
    if chunks != [] {
      TailValid(dims, distance, chunks);
      hide IdMap, ValidCollection;
      if chunks[0].id == c.id {
        ConsValid(dims, distance, c, chunks[1..]);
      } else {
        PutValid(dims, distance, chunks[1..], c);
        PutKeys(chunks[1..], c);
        ConsValid(dims, distance, chunks[0], Put(chunks[1..], c));
      }
    }
  }

  lemma {:induction false} PutAllRefines(dims: nat, distance: Distance, chunks: seq<Chunk>, more: seq<Chunk>)
    requires ValidCollection(Collection(dims, distance, chunks))
    ensures
      var (stored, out) := PutAll(dims, chunks, more);
      && ValidCollection(Collection(dims, distance, stored))
      && IdMap(stored) == Overridden(IdMap(chunks), Accepted(dims, more))
      && (out == Done <==> |Accepted(dims, more)| == |more|) && (out == Done || out == BadDims)
    decreases |more|
  {
    hide ValidCollection, IdMap, Put;
    if more != [] && |more[0].embedding| == dims {
      PutValid(dims, distance, chunks, more[0]);
      PutIdMap(chunks, more[0]);
      PutAllRefines(dims, distance, Put(chunks, more[0]), more[1..]);
    }
  }

  lemma {:induction false} WithoutExactly(chunks: seq<Chunk>, ids: seq<nat>)
    ensures forall c :: c in Without(chunks, ids) <==> c in chunks && c.id !in ids
  {
    if chunks != [] {
      WithoutExactly(chunks[1..], ids);
      assert chunks == [chunks[0]] + chunks[1..];
    }
  }

  // Valid collections, element by element.

  lemma ConsValid(dims: nat, distance: Distance, c: Chunk, rest: seq<Chunk>)
    requires ValidCollection(Collection(dims, distance, rest)) && |c.embedding| == dims
    requires forall k :: 0 <= k < |rest| ==> rest[k].id != c.id
    ensures ValidCollection(Collection(dims, distance, [c] + rest))
  {
  }

  lemma TailValid(dims: nat, distance: Distance, chunks: seq<Chunk>)
    requires ValidCollection(Collection(dims, distance, chunks)) && chunks != []
    ensures ValidCollection(Collection(dims, distance, chunks[1..])) && |chunks[0].embedding| == dims
    ensures forall c :: c in chunks[1..] ==> c.id != chunks[0].id
    ensures chunks[0].id !in IdMap(chunks[1..])
  {
    hide IdMap;
    assert UniqueIds(chunks[1..]);
    IdMapMember(chunks[1..]);
    forall c | c in chunks[1..] ensures c.id != chunks[0].id {
      var k :| 0 <= k < |chunks[1..]| && chunks[1..][k] == c;
      assert chunks[k + 1] == c;
    }
  }

  lemma {:induction false} WithoutIdMap(chunks: seq<Chunk>, ids: seq<nat>)
    ensures IdMap(Without(chunks, ids)) == IdMap(chunks) - IdSet(ids)
  {
    if chunks != [] {
      WithoutIdMap(chunks[1..], ids);
      var rest := Without(chunks[1..], ids);
      if chunks[0].id in ids {
        assert [] + rest == rest;
      } else {
        assert ([chunks[0]] + rest)[1..] == rest;
      }
    }
  }

  lemma {:induction false} WithoutValid(dims: nat, distance: Distance, chunks: seq<Chunk>, ids: seq<nat>)
    requires ValidCollection(Collection(dims, distance, chunks))
    ensures ValidCollection(Collection(dims, distance, Without(chunks, ids)))
  {
    if chunks != [] {
      TailValid(dims, distance, chunks);
      hide ValidCollection, IdMap;
      WithoutValid(dims, distance, chunks[1..], ids);
      WithoutExactly(chunks[1..], ids);
      var rest := Without(chunks[1..], ids);
      if chunks[0].id in ids {
        assert [] + rest == rest;
      } else {
        ConsValid(dims, distance, chunks[0], rest);
      }
    }
  }

  /** Every operation keeps ids unique and dimensions right and does on the lists what its counterpart
    * does on the maps, with the same outcome. */
  lemma Refines(s: Store, op: Op)
    requires Valid(s)
    ensures Valid(Apply(s, op).0)
    ensures (View(Apply(s, op).0), Apply(s, op).1) == MapApply(View(s), op)
  {
    hide ValidCollection, PutAll, Without, IdMap, Overridden, Accepted, IdSet;
    match op
    case Ensure(name, dims, distance) =>
      if name !in s {
        EmptyCollection(dims, distance);
        ViewUpdate(s, name, Collection(dims, distance, []));
      }
    case Upsert(name, chunks) =>
      if name in s {
        PutAllRefines(s[name].dims, s[name].distance, s[name].chunks, chunks);
        var (stored, out) := PutAll(s[name].dims, s[name].chunks, chunks);
        ViewUpdate(s, name, s[name].(chunks := stored));
      }
    case Delete(name, ids) =>
      if name in s {
        WithoutValid(s[name].dims, s[name].distance, s[name].chunks, ids);
        WithoutIdMap(s[name].chunks, ids);
        ViewUpdate(s, name, s[name].(chunks := Without(s[name].chunks, ids)));
      }
    case Drop(name) =>
      ViewDrop(s, name);
  }

  lemma ViewDrop(s: Store, name: string)
    ensures View(s - {name}) == View(s) - {name}
  {
  }

  lemma ViewUpdate(s: Store, name: string, c: Collection)
    ensures View(s[name := c]) == View(s)[name := ContentOf(c)]
  {
    hide IdMap;
  }

  lemma EmptyCollection(dims: nat, distance: Distance)
    ensures ValidCollection(Collection(dims, distance, [])) && IdMap([]) == map[]
  {
  }

  function Run(s: Store, ops: seq<Op>): Store
    decreases |ops|
  {
    if ops == [] then s else Run(Apply(s, ops[0]).0, ops[1..])
  }

  function MapRun(m: map<string, Content>, ops: seq<Op>): map<string, Content>
    decreases |ops|
  {
    if ops == [] then m else MapRun(MapApply(m, ops[0]).0, ops[1..])
  }

  /** Over any run from the empty store the lists stay valid and stand for the maps. */
  lemma {:induction false} RunRefines(s: Store, ops: seq<Op>)
    requires Valid(s)
    ensures Valid(Run(s, ops)) && View(Run(s, ops)) == MapRun(View(s), ops)
    decreases |ops|
  {
    hide Valid, View, Apply, MapApply;
    if ops != [] {
      Refines(s, ops[0]);
      RunRefines(Apply(s, ops[0]).0, ops[1..]);
    }
  }

  /** A collection's count is the number of ids it holds. */
  lemma CountIsSize(s: Store, name: string)
    requires Valid(s) && name in s
    ensures |s[name].chunks| == |View(s)[name].byId|
  {
    IdMapMember(s[name].chunks);
  }

  // ----- Search

  datatype Found = Hits(hits: seq<Scored<Chunk>>) | Missing | WrongDims

  function DotProduct(a: seq<real>, b: seq<real>): real {
    if a == [] || b == [] then 0.0 else a[0] * b[0] + DotProduct(a[1..], b[1..])
  }

  function SquaredGap(a: seq<real>, b: seq<real>): real {
    if a == [] || b == [] then 0.0 else (a[0] - b[0]) * (a[0] - b[0]) + SquaredGap(a[1..], b[1..])
  }

  function Clamped(x: real): (r: real)
    ensures -1.0 <= r <= 1.0
  {
    if x < -1.0 then -1.0 else if x > 1.0 then 1.0 else x
  }

  /** A cosine from the dot product and the lengths; zero where a length is. */
  function Ratio(dot: real, a: real, b: real): (r: real)
    ensures -1.0 <= r <= 1.0
  {
    var denom := a * b;
    if denom == 0.0 then 0.0 else Clamped(dot / denom)
  }

  /** Higher is closer, for every distance. */
  function Similarity(sqrt: real -> real, d: Distance, q: seq<real>, e: seq<real>): (s: real)
    ensures d == Cosine ==> -1.0 <= s <= 1.0
  {
    match d
    case Cosine => Ratio(DotProduct(q, e), sqrt(DotProduct(q, q)), sqrt(DotProduct(e, e)))
    case Dot => DotProduct(q, e)
    case Euclidean => -sqrt(SquaredGap(q, e))
  }

  /** A filter that does not parse is dropped, and then selects everything. */
  function TypedFilter(order: FilterDsl.KeyOrder, filter: Option<FilterDsl.Json>): Option<FilterDsl.Filter>
    requires FilterDsl.ProperOrder(order)
  {
    if filter.None? then None
    else
      match FilterDsl.FromJson(order, filter.value)
      case Ok(f) => if f.All? then None else Some(f)
      case Err(_) => None
  }

  predicate Selected(f: Option<FilterDsl.Filter>, c: Chunk) {
    f.Some? ==> FilterDsl.Matches(f.value, c.metadata)
  }

  function ScoredMatches(entry: Collection, sqrt: real -> real, query: seq<real>, f: Option<FilterDsl.Filter>,
                         chunks: seq<Chunk>): seq<Scored<Chunk>>
  {
    if chunks == [] then []
    else
      (if Selected(f, chunks[0]) then
         [Scored(Similarity(sqrt, entry.distance, query, chunks[0].embedding), chunks[0])]
       else []) + ScoredMatches(entry, sqrt, query, f, chunks[1..])
  }

  function Truncated<T>(s: seq<T>, n: nat): seq<T> {
    if n < |s| then s[..n] else s
  }

  function Best(entry: Collection, sqrt: real -> real, order: FilterDsl.KeyOrder, query: seq<real>, topK: nat,
                filter: Option<FilterDsl.Json>): Found
    requires FilterDsl.ProperOrder(order)
  {
    if |query| != entry.dims then WrongDims
    else Hits(Truncated(Sorted(ScoredMatches(entry, sqrt, query, TypedFilter(order, filter), entry.chunks)), topK))
  }

  lemma {:induction false} ScoredMembers(entry: Collection, sqrt: real -> real, query: seq<real>,
                                         f: Option<FilterDsl.Filter>, chunks: seq<Chunk>)
    ensures forall h :: h in ScoredMatches(entry, sqrt, query, f, chunks) <==>
              h.item in chunks && Selected(f, h.item)
              && h.score == Similarity(sqrt, entry.distance, query, h.item.embedding)
  {
    hide Similarity, Selected;
    if chunks != [] {
      ScoredMembers(entry, sqrt, query, f, chunks[1..]);
      assert chunks == [chunks[0]] + chunks[1..];
    }
  }

  /** What makes a list the best `topK` of a set of candidates. */
  ghost predicate IsBest(hits: seq<Scored<Chunk>>, all: seq<Scored<Chunk>>, topK: nat) {
    && Descending(hits)
    && |hits| == (if topK < |all| then topK else |all|)
    && multiset(hits) <= multiset(all)
    && forall h :: h in multiset(all) - multiset(hits) ==> forall k :: 0 <= k < |hits| ==> h.score <= hits[k].score
  }

  /** An element beyond what was returned stands in the rest of the sorted list. */
  lemma LeftOut<T>(all: multiset<T>, hits: seq<T>, rest: seq<T>, h: T) returns (j: nat)
    requires all == multiset(hits) + multiset(rest) && h in all - multiset(hits)
    ensures j < |rest| && rest[j] == h
  {
    assert h in multiset(rest);
    assert h in rest;
    j :| 0 <= j < |rest| && rest[j] == h;
  }

  lemma TruncatedIsBest(all: seq<Scored<Chunk>>, topK: nat)
    ensures IsBest(Truncated(Sorted(all), topK), all, topK)
  {
    hide Sorted;
    SortedSorts(all);
    var sorted := Sorted(all);
    var hits := Truncated(sorted, topK);
    var rest := sorted[|hits|..];
    assert sorted == hits + rest;
    assert multiset(all) == multiset(hits) + multiset(rest);
    TopDescends(sorted, |hits|);
    hide Descending;
    forall h | h in multiset(all) - multiset(hits) ensures forall k :: 0 <= k < |hits| ==> h.score <= hits[k].score {
      var j := LeftOut(multiset(all), hits, rest, h);
    }
  }

  lemma TopDescends<T>(sorted: seq<Scored<T>>, n: nat)
    requires Descending(sorted) && n <= |sorted|
    ensures Descending(sorted[..n])
    ensures forall j, k :: 0 <= j < |sorted| - n && 0 <= k < n ==> sorted[n..][j].score <= sorted[..n][k].score
  {
  }

  // ----- What the wire filter of a search does

  /** The chunk passes the filter: one that does not parse asks for nothing. */
  predicate Passes(filter: Option<FilterDsl.Json>, c: Chunk) {
    filter.Some? && FilterDsl.Accepts(filter.value) ==> FilterDsl.Means(filter.value, c.metadata)
  }

  /** An accepted filter selects the chunks it means, operator by operator; any other selects all. */
  lemma SelectedMeans(order: FilterDsl.KeyOrder, filter: Option<FilterDsl.Json>, c: Chunk)
    requires FilterDsl.ProperOrder(order)
    ensures Selected(TypedFilter(order, filter), c) <==> Passes(filter, c)
  {
    hide FilterDsl.FromJson, FilterDsl.Accepts, FilterDsl.Means;
    if filter.Some? {
      FilterProofs.FromJsonMeans(order, filter.value, c.metadata);
    }
  }

  ghost predicate Honoured(order: FilterDsl.KeyOrder, filter: FilterDsl.Json)
    requires FilterDsl.ProperOrder(order)
  {
    forall c: Chunk {:trigger FilterDsl.Means(filter, c.metadata)} ::
      Selected(TypedFilter(order, Some(filter)), c) <==> FilterDsl.Means(filter, c.metadata)
  }

  ghost predicate MeansEverything(filter: FilterDsl.Json) {
    forall c: Chunk {:trigger FilterDsl.Means(filter, c.metadata)} :: FilterDsl.Means(filter, c.metadata)
  }

  /** The documentation says unsupported filters are rejected. A search honours the wire filter on every
    * chunk exactly when the filter is well formed, or means every chunk anyway. */
  lemma HonouredExactly(order: FilterDsl.KeyOrder, filter: FilterDsl.Json)
    requires FilterDsl.ProperOrder(order)
    ensures Honoured(order, filter) <==> FilterDsl.Accepts(filter) || MeansEverything(filter)
  {
    hide FilterDsl.Accepts, FilterDsl.Means, Selected, TypedFilter;
    forall c: Chunk
      ensures Selected(TypedFilter(order, Some(filter)), c) <==> Passes(Some(filter), c)
    {
      SelectedMeans(order, Some(filter), c);
    }
  }

  /** A refused filter selects like no filter. */
  lemma RejectedFilterSelectsAll(order: FilterDsl.KeyOrder, filter: FilterDsl.Json, c: Chunk)
    requires FilterDsl.ProperOrder(order) && !FilterDsl.Accepts(filter)
    ensures TypedFilter(order, Some(filter)) == TypedFilter(order, None)
    ensures Selected(TypedFilter(order, Some(filter)), c)
  {
    hide FilterDsl.FromJson, FilterDsl.Accepts;
    FilterProofs.FromJsonMeans(order, filter, c.metadata);
  }

  /** An operator the language does not know means no chunk, and selects every one. */
  lemma UnknownOperatorSelectsAll(order: FilterDsl.KeyOrder, c: Chunk)
    requires FilterDsl.ProperOrder(order)
    ensures
      var filter := FilterDsl.Obj(map["tag" := FilterDsl.Obj(map["$like" := FilterDsl.Str("x")])]);
      && !FilterDsl.Accepts(filter) && !FilterDsl.Means(filter, c.metadata)
      && Selected(TypedFilter(order, Some(filter)), c)
  {
    hide FilterDsl.FromJson;
    var ops := map["$like" := FilterDsl.Str("x")];
    var filter := FilterDsl.Obj(map["tag" := FilterDsl.Obj(ops)]);
    assert ops["$like"] == FilterDsl.Str("x") && FilterDsl.IsOperator("$like");
    assert FilterDsl.HasAnyOp(ops);
    assert !FilterDsl.OpAccepted("$like", ops["$like"]) && !FilterDsl.OpHolds(c.metadata, "tag", "$like", ops["$like"]);
    assert filter.fields["tag"] == FilterDsl.Obj(ops);
    assert !FilterDsl.EntryAccepted("tag", filter.fields["tag"]);
    assert !FilterDsl.EntryHolds("tag", filter.fields["tag"], c.metadata);
    RejectedFilterSelectsAll(order, filter, c);
  }

  // ----- What a search returns

  ghost function PassingSet(chunks: seq<Chunk>, f: Option<FilterDsl.Filter>): set<Chunk> {
    set c | c in chunks && Selected(f, c)
  }

  /** Unique ids make as many candidates as there are chunks that pass. */
  lemma {:induction false} ScoredCount(entry: Collection, sqrt: real -> real, query: seq<real>,
                                       f: Option<FilterDsl.Filter>, chunks: seq<Chunk>)
    requires UniqueIds(chunks)
    ensures |ScoredMatches(entry, sqrt, query, f, chunks)| == |PassingSet(chunks, f)|
  {
    hide Similarity, Selected;
    if chunks == [] {
      assert PassingSet(chunks, f) == {};
    } else {
      UniqueTail(chunks);
      hide UniqueIds;
      ScoredCount(entry, sqrt, query, f, chunks[1..]);
      PassingTail(chunks, f);
    }
  }

  lemma PassingTail(chunks: seq<Chunk>, f: Option<FilterDsl.Filter>)
    requires chunks != [] && chunks[0] !in chunks[1..]
    ensures |PassingSet(chunks, f)| == (if Selected(f, chunks[0]) then 1 else 0) + |PassingSet(chunks[1..], f)|
  {
    hide Selected;
    var c := chunks[0];
    var rest := PassingSet(chunks[1..], f);
    assert chunks == [c] + chunks[1..];
    assert c !in rest;
    assert PassingSet(chunks, f) == (if Selected(f, c) then {c} + rest else rest);
  }

  /** And none of them twice. */
  lemma {:induction false} ScoredOnce(entry: Collection, sqrt: real -> real, query: seq<real>,
                                      f: Option<FilterDsl.Filter>, chunks: seq<Chunk>)
    requires UniqueIds(chunks)
    ensures forall h :: multiset(ScoredMatches(entry, sqrt, query, f, chunks))[h] <= 1
  {
    hide Similarity, Selected;
    if chunks != [] {
      UniqueTail(chunks);
      hide UniqueIds;
      ScoredOnce(entry, sqrt, query, f, chunks[1..]);
      ScoredMembers(entry, sqrt, query, f, chunks[1..]);
      var rest := ScoredMatches(entry, sqrt, query, f, chunks[1..]);
      if Selected(f, chunks[0]) {
        var h := Scored(Similarity(sqrt, entry.distance, query, chunks[0].embedding), chunks[0]);
        assert h !in rest;
        assert multiset([h] + rest) == multiset{h} + multiset(rest);
      } else {
        assert [] + rest == rest;
      }
    }
  }

  lemma UniqueTail(chunks: seq<Chunk>)
    requires UniqueIds(chunks) && chunks != []
    ensures UniqueIds(chunks[1..]) && chunks[0] !in chunks[1..]
  {
  }

  lemma SameIdSameChunk(chunks: seq<Chunk>, c: Chunk, d: Chunk)
    requires UniqueIds(chunks) && c in chunks && d in chunks && c.id == d.id
    ensures c == d
  {
  }

  lemma CountedTwice<T>(s: seq<T>, i: nat, j: nat)
    requires i < j < |s| && s[i] == s[j]
    ensures multiset(s)[s[i]] >= 2
  {
    assert s == s[..i] + [s[i]] + s[i + 1..];
    assert s[i + 1..][j - i - 1] == s[j];
    assert multiset(s) == multiset(s[..i]) + multiset{s[i]} + multiset(s[i + 1..]);
  }

  ghost function Wanted(chunks: seq<Chunk>, filter: Option<FilterDsl.Json>): set<Chunk> {
    set c | c in chunks && Passes(filter, c)
  }

  /** The hits of a search, best first. */
  ghost predicate SearchResult(hits: seq<Scored<Chunk>>, entry: Collection, sqrt: real -> real, query: seq<real>,
                               topK: nat, filter: Option<FilterDsl.Json>)
  {
    var wanted := Wanted(entry.chunks, filter);
    && Descending(hits)
    && |hits| == (if topK < |wanted| then topK else |wanted|)
    && (forall i, j :: 0 <= i < j < |hits| ==> hits[i].item.id != hits[j].item.id)
    && (forall k :: 0 <= k < |hits| ==>
          hits[k].item in wanted && hits[k].score == Similarity(sqrt, entry.distance, query, hits[k].item.embedding))
    && forall c, k :: c in wanted && (forall i :: 0 <= i < |hits| ==> hits[i].item != c) && 0 <= k < |hits| ==>
         Similarity(sqrt, entry.distance, query, c.embedding) <= hits[k].score
  }

  lemma WantedSet(order: FilterDsl.KeyOrder, filter: Option<FilterDsl.Json>, chunks: seq<Chunk>)
    requires FilterDsl.ProperOrder(order)
    ensures PassingSet(chunks, TypedFilter(order, filter)) == Wanted(chunks, filter)
  {
    hide TypedFilter, Selected, Passes;
    forall c: Chunk ensures Selected(TypedFilter(order, filter), c) <==> Passes(filter, c) {
      SelectedMeans(order, filter, c);
    }
  }

  /** The candidates: each wanted chunk once, with its similarity. */
  ghost predicate Candidates(all: seq<Scored<Chunk>>, entry: Collection, sqrt: real -> real, query: seq<real>,
                             filter: Option<FilterDsl.Json>)
  {
    && |all| == |Wanted(entry.chunks, filter)|
    && (forall h :: multiset(all)[h] <= 1)
    && forall h :: h in all <==>
         h.item in Wanted(entry.chunks, filter) && h.score == Similarity(sqrt, entry.distance, query, h.item.embedding)
  }

  lemma BestOfCandidates(entry: Collection, sqrt: real -> real, order: FilterDsl.KeyOrder, query: seq<real>, topK: nat,
                         filter: Option<FilterDsl.Json>) returns (all: seq<Scored<Chunk>>)
    requires UniqueIds(entry.chunks) && |query| == entry.dims && FilterDsl.ProperOrder(order)
    ensures Candidates(all, entry, sqrt, query, filter)
    ensures
      var found := Best(entry, sqrt, order, query, topK, filter);
      found.Hits? && IsBest(found.hits, all, topK)
  {
    hide Similarity, Selected, TypedFilter, Truncated, Sorted, Passes, UniqueIds, IsBest, Wanted;
    var f := TypedFilter(order, filter);
    all := ScoredMatches(entry, sqrt, query, f, entry.chunks);
    TruncatedIsBest(all, topK);
    ScoredMembers(entry, sqrt, query, f, entry.chunks);
    ScoredCount(entry, sqrt, query, f, entry.chunks);
    ScoredOnce(entry, sqrt, query, f, entry.chunks);
    WantedSet(order, filter, entry.chunks);
  }

  lemma HitsAreDistinct(chunks: seq<Chunk>, hits: seq<Scored<Chunk>>, all: seq<Scored<Chunk>>, i: nat, j: nat)
    requires UniqueIds(chunks) && i < j < |hits| && multiset(hits) <= multiset(all)
    requires forall h :: multiset(all)[h] <= 1
    requires hits[i].item in chunks && hits[j].item in chunks
    requires hits[i].item == hits[j].item ==> hits[i].score == hits[j].score
    ensures hits[i].item.id != hits[j].item.id
  {
    if hits[i].item.id == hits[j].item.id {
      SameIdSameChunk(chunks, hits[i].item, hits[j].item);
      CountedTwice(hits, i, j);
    }
  }

  lemma HitIsCandidate(hits: seq<Scored<Chunk>>, all: seq<Scored<Chunk>>, k: nat)
    requires multiset(hits) <= multiset(all) && k < |hits|
    ensures hits[k] in all
  {
    assert hits[k] in multiset(hits);
    assert hits[k] in multiset(all);
  }

  lemma LeftOutIsBelow(hits: seq<Scored<Chunk>>, all: seq<Scored<Chunk>>, topK: nat, h: Scored<Chunk>, k: nat)
    requires IsBest(hits, all, topK) && h in all && h !in hits && k < |hits|
    ensures h.score <= hits[k].score
  {
    assert h in multiset(all) && multiset(hits)[h] == 0;
  }

  /** In a valid collection a search returns distinct chunks that pass the wire filter, best first, each
    * with its own similarity: as many as asked for, or all there are; and no chunk that passes and is
    * left out scores higher than one returned. */
  lemma SearchIsBest(entry: Collection, sqrt: real -> real, order: FilterDsl.KeyOrder, query: seq<real>, topK: nat,
                     filter: Option<FilterDsl.Json>)
    requires ValidCollection(entry) && |query| == entry.dims && FilterDsl.ProperOrder(order)
    ensures
      var found := Best(entry, sqrt, order, query, topK, filter);
      found.Hits? && SearchResult(found.hits, entry, sqrt, query, topK, filter)
  {
    hide Similarity, Best, Passes, UniqueIds, Descending;
    var all := BestOfCandidates(entry, sqrt, order, query, topK, filter);
    var hits := Best(entry, sqrt, order, query, topK, filter).hits;
    BestIsResult(hits, all, entry, sqrt, query, topK, filter);
  }

  lemma BestIsResult(hits: seq<Scored<Chunk>>, all: seq<Scored<Chunk>>, entry: Collection, sqrt: real -> real,
                     query: seq<real>, topK: nat, filter: Option<FilterDsl.Json>)
    requires UniqueIds(entry.chunks) && Candidates(all, entry, sqrt, query, filter) && IsBest(hits, all, topK)
    ensures SearchResult(hits, entry, sqrt, query, topK, filter)
  {
    hide Similarity, Passes, UniqueIds, Descending;
    forall k | 0 <= k < |hits|
      ensures hits[k].item in Wanted(entry.chunks, filter)
      ensures hits[k].score == Similarity(sqrt, entry.distance, query, hits[k].item.embedding)
    {
      HitIsCandidate(hits, all, k);
    }
    hide Wanted;
    forall i, j | 0 <= i < j < |hits| ensures hits[i].item.id != hits[j].item.id {
      WantedAreStored(entry.chunks, filter, hits[i].item);
      WantedAreStored(entry.chunks, filter, hits[j].item);
      HitsAreDistinct(entry.chunks, hits, all, i, j);
    }
    forall c, k | c in Wanted(entry.chunks, filter) && (forall i :: 0 <= i < |hits| ==> hits[i].item != c) && 0 <= k < |hits|
      ensures Similarity(sqrt, entry.distance, query, c.embedding) <= hits[k].score
    {
      LeftOutIsBelow(hits, all, topK, Scored(Similarity(sqrt, entry.distance, query, c.embedding), c), k);
    }
  }

  lemma WantedAreStored(chunks: seq<Chunk>, filter: Option<FilterDsl.Json>, c: Chunk)
    requires c in Wanted(chunks, filter)
    ensures c in chunks
  {
  }

  /** What a square root is. */
  ghost predicate IsRoot(sqrt: real -> real) {
    forall x: real {:trigger sqrt(x)} :: x >= 0.0 ==> sqrt(x) >= 0.0 && sqrt(x) * sqrt(x) == x
  }

  lemma {:induction false} SquaresAdd(a: seq<real>, b: seq<real>)
    ensures SquaredGap(a, b) >= 0.0 && DotProduct(a, a) >= 0.0 && SquaredGap(a, a) == 0.0
  {
    if a != [] {
      SquaresAdd(a[1..], if b == [] then [] else b[1..]);
    }
  }

  lemma ProductPositive(a: real, b: real)
    requires a > 0.0 && b > 0.0
    ensures a * b > 0.0
  {
  }

  lemma ZeroFactor(a: real, b: real)
    requires a * b == 0.0 && b > 0.0
    ensures a == 0.0
  {
    if a > 0.0 {
      ProductPositive(a, b);
    } else if a < 0.0 {
      ProductPositive(-a, b);
    }
  }

  lemma RootOfZero(z: real)
    requires z >= 0.0 && z * z == 0.0
    ensures z == 0.0
  {
    if z > 0.0 {
      ZeroFactor(z, z);
    }
  }

  lemma WholeQuotient(n: real)
    requires n > 0.0
    ensures n / n == 1.0
  {
  }

  lemma SelfCosine(sqrt: real -> real, q: seq<real>)
    requires IsRoot(sqrt) && DotProduct(q, q) > 0.0
    ensures Similarity(sqrt, Cosine, q, q) == 1.0
  {
    hide DotProduct;
    var n := DotProduct(q, q);
    assert sqrt(n) * sqrt(n) == n;
    WholeQuotient(n);
  }

  lemma SelfEuclidean(sqrt: real -> real, q: seq<real>, e: seq<real>)
    requires IsRoot(sqrt)
    ensures Similarity(sqrt, Euclidean, q, q) == 0.0 >= Similarity(sqrt, Euclidean, q, e)
  {
    hide DotProduct, SquaredGap;
    SquaresAdd(q, e);
    assert sqrt(SquaredGap(q, e)) >= 0.0;
    assert sqrt(0.0) * sqrt(0.0) == 0.0;
    RootOfZero(sqrt(0.0));
  }

  /** A chunk that equals the query scores at least as high as any other under cosine and Euclidean
    * distance; under cosine it scores 1, unless it is the zero vector. */
  lemma ExactMatchScoresHighest(sqrt: real -> real, d: Distance, q: seq<real>, e: seq<real>)
    requires IsRoot(sqrt) && d != Dot
    requires d == Cosine ==> DotProduct(q, q) > 0.0
    ensures Similarity(sqrt, d, q, q) >= Similarity(sqrt, d, q, e)
    ensures Similarity(sqrt, d, q, q) == if d == Cosine then 1.0 else 0.0
  {
    hide Similarity, IsRoot;
    if d == Cosine {
      SelfCosine(sqrt, q);
    } else {
      SelfEuclidean(sqrt, q, e);
    }
  }

  lemma SquaresOrder(x: real, y: real)
    requires x >= y >= 0.0
    ensures x * x >= y * y
  {
    assert x * x >= x * y;
    assert x * y >= y * y;
  }

  /** Under Euclidean distance the nearer chunk scores higher. */
  lemma NearerScoresHigher(sqrt: real -> real, q: seq<real>, a: seq<real>, b: seq<real>)
    requires IsRoot(sqrt) && SquaredGap(q, a) < SquaredGap(q, b)
    ensures Similarity(sqrt, Euclidean, q, a) > Similarity(sqrt, Euclidean, q, b)
  {
    hide DotProduct, SquaredGap;
    SquaresAdd(q, a);
    SquaresAdd(q, b);
    RootsOrder(sqrt, SquaredGap(q, a), SquaredGap(q, b));
  }

  lemma RootsOrder(sqrt: real -> real, x: real, y: real)
    requires IsRoot(sqrt) && 0.0 <= x < y
    ensures sqrt(x) < sqrt(y)
  {
    assert sqrt(x) * sqrt(x) == x && sqrt(y) * sqrt(y) == y;
    if sqrt(x) >= sqrt(y) {
      SquaresOrder(sqrt(x), sqrt(y));
    }
  }
}
