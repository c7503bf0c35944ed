/** Which wire filters reach Qdrant, read off the wire form itself, and what happens to the others. */
module QdrantWire {
  import opened Wrappers
  import opened FilterDsl
  import opened FilterProofs
  import opened QdrantFilter

  // ----- The wire filters that reach Qdrant

  /** A value Qdrant can be asked to match: text, truth values and 64-bit integers. */
  predicate MatchValue(v: Json) {
    v.Str? || v.Bool? || AsI64(v).Some?
  }

  /** A list for `$in`: not empty, and all text or all 64-bit integers. */
  predicate MatchList(items: seq<Json>) {
    items != [] && ((forall x | x in items :: x.Str?) || (forall x | x in items :: AsI64(x).Some?))
  }

  predicate OpSent(op: string, v: Json) {
    if op == "$eq" || op == "$ne" then MatchValue(v)
    else if op == "$in" then v.Arr? && MatchList(v.items)
    else if op == "$nin" then v.Arr? && forall x | x in v.items :: MatchValue(x)
    else true
  }

  predicate FieldSent(v: Json) {
    if v.Obj? && HasAnyOp(v.fields) then forall op | op in v.fields :: OpSent(op, v.fields[op]) else MatchValue(v)
  }

  /** No choice or negation at any depth, and only matchable values. */
  predicate Expressible(v: Json)
    decreases v, 0
  {
    v.Obj? && forall k | k in v.fields :: EntryExpressible(k, v.fields[k])
  }

  predicate EntryExpressible(key: string, v: Json)
    decreases v, 1
  {
    if key == "$and" then v.Arr? && forall x | x in v.items :: Expressible(x)
    else if key == "$or" || key == "$not" then false
    else FieldSent(v)
  }

  /** Nothing but conjunctions of nothing. */
  predicate AsksNothing(v: Json)
    decreases v, 0
  {
    v.Obj? && forall k | k in v.fields :: EntryAsksNothing(k, v.fields[k])
  }

  predicate EntryAsksNothing(key: string, v: Json)
    decreases v, 1
  {
    key == "$and" && v.Arr? && forall x | x in v.items :: AsksNothing(x)
  }

  /** A native filter is sent for this wire filter. */
  predicate Sent(v: Json) {
    Accepts(v) && Expressible(v) && !AsksNothing(v)
  }

  // ----- Typed filters: translatable, and not trivial

  /** Parses to a filter without any condition. */
  predicate Trivial(f: Filter)
    decreases f
  {
    f.All? || (f.And? && forall p | p in f.parts :: Trivial(p))
  }

  predicate AllTranslatable(parts: seq<Filter>) {
    forall p | p in parts :: Translatable(p)
  }

  predicate AllTrivial(parts: seq<Filter>) {
    forall p | p in parts :: Trivial(p)
  }

  predicate NoneTrivial(parts: seq<Filter>) {
    forall p | p in parts :: !Trivial(p)
  }

  lemma PartsSnoc(parts: seq<Filter>, f: Filter)
    ensures AllTranslatable(parts + [f]) <==> AllTranslatable(parts) && Translatable(f)
    ensures AllTrivial(parts + [f]) <==> AllTrivial(parts) && Trivial(f)
    ensures NoneTrivial(parts + [f]) <==> NoneTrivial(parts) && !Trivial(f)
  {
    hide Translatable, Trivial;
    assert forall p :: p in parts + [f] <==> p in parts || p == f;
  }

  /** Translation comes out empty exactly for the trivial filters. */
  lemma {:induction false} EmptyExactly(f: Filter)
    requires Conditions(f).Some?
    ensures Conditions(f).value == [] <==> Trivial(f)
    decreases f, 0
  {
    hide MatchCondition, MatchAll, AllConditions, Texts, Ints, IntMatches;
    if f.And? {
      AllEmpty(f.parts);
    }
  }

  lemma {:induction false} AllEmpty(parts: seq<Filter>)
    requires AllConditions(parts).Some?
    ensures AllConditions(parts).value == [] <==> AllTrivial(parts)
    decreases parts, 1
  {
    hide Conditions, Trivial;
    if parts != [] {
      assert forall p :: p in parts <==> p == parts[0] || p in parts[1..];
      EmptyExactly(parts[0]);
      AllEmpty(parts[1..]);
      var a, b := Conditions(parts[0]).value, AllConditions(parts[1..]).value;
      assert a + b == [] <==> a == [] && b == [];
    }
  }

  // ----- From wire to typed

  lemma AddOpSends(field: string, op: string, v: Json, parts: seq<Filter>, range: RangeBuilder)
    requires AddOp(field, op, v, parts, range).Ok?
    ensures
      var (parts', range') := AddOp(field, op, v, parts, range).value;
      && (AllTranslatable(parts') <==> AllTranslatable(parts) && OpSent(op, v))
      && (NoneTrivial(parts) ==> NoneTrivial(parts'))
      && (parts' != [] || range'.Any())
  {
    hide AllTranslatable, NoneTrivial;
    if op == "$eq" { PartsSnoc(parts, Eq(field, v)); }
    else if op == "$ne" { PartsSnoc(parts, Ne(field, v)); }
    else if op == "$in" { PartsSnoc(parts, In(field, v.items)); }
    else if op == "$nin" { PartsSnoc(parts, NotIn(field, v.items)); }
  }

  lemma AddOpKeeps(field: string, op: string, v: Json, parts: seq<Filter>, range: RangeBuilder)
    requires AddOp(field, op, v, parts, range).Ok? && (parts != [] || range.Any())
    ensures var (parts', range') := AddOp(field, op, v, parts, range).value; parts' != [] || range'.Any()
  {
  }

  lemma {:induction false} AddOpsSend(field: string, ops: map<string, Json>, keys: seq<string>, parts: seq<Filter>,
                                      range: RangeBuilder)
    requires forall k | k in keys :: k in ops
    requires AddOps(field, ops, keys, parts, range).Ok? && NoneTrivial(parts)
    ensures
      var (parts', range') := AddOps(field, ops, keys, parts, range).value;
      && (AllTranslatable(parts') <==> AllTranslatable(parts) && forall k | k in keys :: OpSent(k, ops[k]))
      && NoneTrivial(parts')
      && (keys != [] || parts != [] || range.Any() ==> parts' != [] || range'.Any())
    decreases |keys|
  {
    hide AllTranslatable, NoneTrivial, OpSent, AddOp;
    if keys != [] {
      var k := keys[0];
      assert forall j :: j in keys <==> j == k || j in keys[1..];
      AddOpSends(field, k, ops[k], parts, range);
      var (parts', range') := AddOp(field, k, ops[k], parts, range).value;
      AddOpsSend(field, ops, keys[1..], parts', range');
    }
  }

  lemma FinishSends(field: string, parts: seq<Filter>, range: RangeBuilder)
    requires NoneTrivial(parts) && (parts != [] || range.Any())
    ensures Translatable(Finish(field, parts, range)) <==> AllTranslatable(parts)
    ensures !Trivial(Finish(field, parts, range))
  {
    var last := Range(field, range.gte, range.gt, range.lte, range.lt);
    PartsSnoc(parts, last);
    var all := if range.Any() then parts + [last] else parts;
    assert all[0] in all;
    assert |all| == 1 ==> all == [all[0]];
  }

  lemma EqSends(field: string, v: Json)
    ensures Translatable(Eq(field, v)) <==> MatchValue(v)
    ensures !Trivial(Eq(field, v))
  {
  }

  lemma FieldSends(order: KeyOrder, field: string, v: Json)
    requires ProperOrder(order) && ParseField(order, field, v).Ok?
    ensures Translatable(ParseField(order, field, v).value) <==> FieldSent(v)
    ensures !Trivial(ParseField(order, field, v).value)
  {
    hide AddOps, OpSent, Finish, Translatable, Trivial, MatchValue;
    if v.Obj? && HasAnyOp(v.fields) {
      var keys := order(v.fields.Keys);
      assert Enumerates(keys, v.fields.Keys);
      var some :| some in v.fields && IsOperator(some);
      assert some in keys;
      NoFilters();
      AddOpsSend(field, v.fields, keys, [], NO_RANGE);
      var (parts, range) := AddOps(field, v.fields, keys, [], NO_RANGE).value;
      FinishSends(field, parts, range);
    } else {
      EqSends(field, v);
    }
  }

  lemma NoFilters()
    ensures AllTranslatable([]) && AllTrivial([]) && NoneTrivial([])
  {
  }

  lemma AndSends(parts: seq<Filter>)
    ensures Translatable(And(parts)) <==> AllTranslatable(parts)
    ensures Trivial(And(parts)) <==> AllTrivial(parts)
  {
  }

  lemma {:induction false} KvSends(order: KeyOrder, key: string, v: Json)
    requires ProperOrder(order) && ParseKv(order, key, v).Ok?
    ensures Translatable(ParseKv(order, key, v).value) <==> EntryExpressible(key, v)
    ensures Trivial(ParseKv(order, key, v).value) <==> EntryAsksNothing(key, v)
    decreases v, 3
  {
    hide ParseField, FieldSent, FromJson, ParseAll, Expressible, AsksNothing;
    if key == "$and" {
      hide Translatable, Trivial;
      NoFilters();
      AllSend(order, v.items, []);
      AndSends(ParseAll(order, v.items, []).value);
    } else if key != "$or" && key != "$not" {
      FieldSends(order, key, v);
    }
  }

  lemma {:induction false} AllSend(order: KeyOrder, items: seq<Json>, parts: seq<Filter>)
    requires ProperOrder(order) && ParseAll(order, items, parts).Ok?
    ensures
      var fs := ParseAll(order, items, parts).value;
      && (AllTranslatable(fs) <==> AllTranslatable(parts) && forall x | x in items :: Expressible(x))
      && (AllTrivial(fs) <==> AllTrivial(parts) && forall x | x in items :: AsksNothing(x))
    decreases items, 1
  {
    hide FromJson, Expressible, AsksNothing, AllTranslatable, AllTrivial;
    if items != [] {
      assert forall x :: x in items <==> x == items[0] || x in items[1..];
      FromJsonSends(order, items[0]);
      var f := FromJson(order, items[0]).value;
      PartsSnoc(parts, f);
      AllSend(order, items[1..], parts + [f]);
    }
  }

  lemma {:induction false} EntriesSend(order: KeyOrder, v: Json, keys: seq<string>, parts: seq<Filter>)
    requires ProperOrder(order)
    requires v.Obj? && forall k | k in keys :: k in v.fields
    requires ParseEntries(order, v, keys, parts).Ok?
    ensures
      var fs := ParseEntries(order, v, keys, parts).value;
      && (AllTranslatable(fs) <==> AllTranslatable(parts) && forall k | k in keys :: EntryExpressible(k, v.fields[k]))
      && (AllTrivial(fs) <==> AllTrivial(parts) && forall k | k in keys :: EntryAsksNothing(k, v.fields[k]))
    decreases v, 1, |keys|
  {
    hide ParseKv, EntryExpressible, EntryAsksNothing, AllTranslatable, AllTrivial;
    if keys != [] {
      var k := keys[0];
      assert forall j :: j in keys <==> j == k || j in keys[1..];
      KvSends(order, k, v.fields[k]);
      var f := ParseKv(order, k, v.fields[k]).value;
      PartsSnoc(parts, f);
      EntriesSend(order, v, keys[1..], parts + [f]);
    }
  }

  lemma SinglePart(f: Filter)
    ensures AllTranslatable([f]) <==> Translatable(f)
    ensures AllTrivial([f]) <==> Trivial(f)
  {
    assert f in [f];
  }

  /** The typed filter is translatable, or trivial, exactly when the wire form says so. */
  lemma {:induction false} FromJsonSends(order: KeyOrder, v: Json)
    requires ProperOrder(order) && FromJson(order, v).Ok?
    ensures Translatable(FromJson(order, v).value) <==> Expressible(v)
    ensures Trivial(FromJson(order, v).value) <==> AsksNothing(v)
    decreases v, 2
  {
    hide ParseEntries, EntryExpressible, EntryAsksNothing, AllTranslatable, AllTrivial;
    if v.fields != map[] {
      hide Translatable, Trivial;
      var keys := order(v.fields.Keys);
      assert Enumerates(keys, v.fields.Keys);
      NoFilters();
      EntriesSend(order, v, keys, []);
      var fs := ParseEntries(order, v, keys, []).value;
      if |fs| == 1 {
        assert fs == [fs[0]];
        SinglePart(fs[0]);
      } else {
        AndSends(fs);
      }
    }
  }

  // ----- What is sent, and what is searched

  /** A native filter is sent exactly for the accepted wire filters that are expressible and ask for
    * something, whatever the order of keys. */
  lemma SendsExactly(order: KeyOrder, v: Json)
    requires ProperOrder(order)
    ensures ValueToFilter(order, v).Some? <==> Sent(v)
  {
    hide FromJson, Conditions, Translatable, Trivial, Expressible, AsksNothing, Accepts, IsQdrantNative;
    FromJsonMeans(order, v, map[]);
    if FromJson(order, v).Ok? {
      var f := FromJson(order, v).value;
      FromJsonSends(order, v);
      TranslatesExactly(f);
      if Conditions(f).Some? {
        EmptyExactly(f);
      }
      AllIsTrivial(f);
    }
  }

  lemma AllIsTrivial(f: Filter)
    ensures f.All? ==> Trivial(f)
  {
  }

  /** The points a search considers: those the native filter admits, or all when none is sent. */
  predicate Admits(order: KeyOrder, v: Json, m: Metadata)
    requires ProperOrder(order)
  {
    var q := ValueToFilter(order, v);
    q.Some? ==> Satisfies(q.value, m)
  }

  ghost predicate MeansEverything(v: Json) {
    forall m {:trigger Means(v, m)} :: ScalarMetadata(m) ==> Means(v, m)
  }

  ghost predicate Honoured(order: KeyOrder, v: Json)
    requires ProperOrder(order)
  {
    forall m {:trigger Means(v, m)} {:trigger Admits(order, v, m)} ::
      ScalarMetadata(m) ==> (Admits(order, v, m) <==> Means(v, m))
  }

  lemma AdmitsMeans(order: KeyOrder, v: Json, m: Metadata)
    requires ProperOrder(order) && ScalarMetadata(m)
    ensures Sent(v) ==> (Admits(order, v, m) <==> Means(v, m))
    ensures !Sent(v) ==> Admits(order, v, m)
  {
    hide Sent, ValueToFilter, Satisfies, Means, ScalarMetadata;
    SendsExactly(order, v);
    if Sent(v) {
      NativeFilterMeans(order, v, m);
    }
  }

  /** The points a search considers are those the wire filter means exactly when a native filter is sent
    * for it, or when it means every point anyway. */
  lemma HonouredExactly(order: KeyOrder, v: Json)
    requires ProperOrder(order)
    ensures Honoured(order, v) <==> Sent(v) || MeansEverything(v)
  {
    hide Sent, Admits, Means, ScalarMetadata;
    forall m: Metadata | ScalarMetadata(m)
      ensures Sent(v) ==> (Admits(order, v, m) <==> Means(v, m))
      ensures !Sent(v) ==> Admits(order, v, m)
    {
      AdmitsMeans(order, v, m);
    }
  }

  /** A choice or a negation somewhere in the filter, through conjunctions. */
  predicate Chooses(v: Json)
    decreases v
  {
    v.Obj? &&
    ("$or" in v.fields || "$not" in v.fields ||
     ("$and" in v.fields && v.fields["$and"].Arr? && exists x | x in v.fields["$and"].items :: Chooses(x)))
  }

  lemma {:induction false} ChoosesIsNotExpressible(v: Json)
    requires Chooses(v)
    ensures !Expressible(v)
    decreases v
  {
    if "$or" in v.fields {
      assert !EntryExpressible("$or", v.fields["$or"]);
    } else if "$not" in v.fields {
      assert !EntryExpressible("$not", v.fields["$not"]);
    } else {
      var x :| x in v.fields["$and"].items && Chooses(x);
      ChoosesIsNotExpressible(x);
      assert !EntryExpressible("$and", v.fields["$and"]);
    }
  }

  /** A wire filter with a choice or a negation anywhere is dropped whole: every point is considered. */
  lemma ChoiceIsDropped(order: KeyOrder, v: Json, m: Metadata)
    requires ProperOrder(order) && Chooses(v)
    ensures ValueToFilter(order, v) == None && Admits(order, v, m)
  {
    hide ValueToFilter, Expressible, Satisfies, Chooses, Accepts, AsksNothing;
    ChoosesIsNotExpressible(v);
    SendsExactly(order, v);
  }

  /** The negation of the empty filter: it means no point, and every point is considered. */
  lemma NegationIsDropped(order: KeyOrder, m: Metadata)
    requires ProperOrder(order)
    ensures
      var v := Obj(map["$not" := Obj(map[])]);
      Accepts(v) && !Means(v, m) && Admits(order, v, m)
  {
    var inner := Obj(map[]);
    var v := Obj(map["$not" := inner]);
    assert v.fields["$not"] == inner;
    assert EntryHolds("$not", inner, m) <==> !Means(inner, m);
    ChoiceIsDropped(order, v, m);
  }
}
