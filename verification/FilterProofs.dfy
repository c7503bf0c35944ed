/** Parsing keeps the meaning of every wire filter, whatever order its keys are visited in. */
module FilterProofs {
  import opened Wrappers
  import opened FilterDsl

  predicate AllMatch(parts: seq<Filter>, m: Metadata) {
    forall p | p in parts :: Matches(p, m)
  }

  predicate AnyMatch(parts: seq<Filter>, m: Metadata) {
    exists p | p in parts :: Matches(p, m)
  }

  lemma MatchSnoc(parts: seq<Filter>, f: Filter, m: Metadata)
    ensures AllMatch(parts + [f], m) <==> AllMatch(parts, m) && Matches(f, m)
    ensures AnyMatch(parts + [f], m) <==> AnyMatch(parts, m) || Matches(f, m)
  {
    hide Matches;
    assert forall p :: p in parts + [f] <==> p in parts || p == f;
  }

  // ----- Operators of one field

  predicate RangeHolds(field: string, range: RangeBuilder, m: Metadata) {
    range.Any() ==>
      NumberAt(m, field).Some? &&
      WithinBounds(NumberAt(m, field).value, range.gte, range.gt, range.lte, range.lt)
  }

  /** The range does not yet hold a bound for this operator. */
  predicate Unset(range: RangeBuilder, op: string) {
    (op == "$gte" ==> range.gte.None?) && (op == "$gt" ==> range.gt.None?) &&
    (op == "$lte" ==> range.lte.None?) && (op == "$lt" ==> range.lt.None?)
  }

  lemma AddOpMeans(field: string, op: string, v: Json, parts: seq<Filter>, range: RangeBuilder, m: Metadata)
    requires Unset(range, op)
    ensures AddOp(field, op, v, parts, range).Ok? <==> OpAccepted(op, v)
    ensures AddOp(field, op, v, parts, range).Ok? ==>
              var (parts', range') := AddOp(field, op, v, parts, range).value;
              && (AllMatch(parts', m) && RangeHolds(field, range', m) <==>
                    AllMatch(parts, m) && RangeHolds(field, range, m) && OpHolds(m, field, op, v))
              && forall other :: other != op && Unset(range, other) ==> Unset(range', other)
  {
    hide AllMatch;
    if op == "$eq" { MatchSnoc(parts, Eq(field, v), m); }
    else if op == "$ne" { MatchSnoc(parts, Ne(field, v), m); }
    else if op == "$in" && v.Arr? { MatchSnoc(parts, In(field, v.items), m); }
    else if op == "$nin" && v.Arr? { MatchSnoc(parts, NotIn(field, v.items), m); }
  }

  predicate Distinct(keys: seq<string>) {
    forall i, j :: 0 <= i < j < |keys| ==> keys[i] != keys[j]
  }

  lemma {:induction false} AddOpsMean(field: string, ops: map<string, Json>, keys: seq<string>, parts: seq<Filter>,
                                      range: RangeBuilder, m: Metadata)
    requires (forall k | k in keys :: k in ops && Unset(range, k)) && Distinct(keys)
    ensures AddOps(field, ops, keys, parts, range).Ok? <==> forall k | k in keys :: OpAccepted(k, ops[k])
    ensures AddOps(field, ops, keys, parts, range).Ok? ==>
              var (parts', range') := AddOps(field, ops, keys, parts, range).value;
              AllMatch(parts', m) && RangeHolds(field, range', m) <==>
                AllMatch(parts, m) && RangeHolds(field, range, m) && forall k | k in keys :: OpHolds(m, field, k, ops[k])
    decreases |keys|
  {
    hide AllMatch, RangeHolds, OpHolds, OpAccepted, AddOp, Unset;
    if keys != [] {
      var k := keys[0];
      assert forall j :: j in keys <==> j == k || j in keys[1..];
      AddOpMeans(field, k, ops[k], parts, range, m);
      if AddOp(field, k, ops[k], parts, range).Ok? {
        var (parts', range') := AddOp(field, k, ops[k], parts, range).value;
        forall j | j in keys[1..] ensures j in ops && Unset(range', j) && j != k {
          var i :| 0 <= i < |keys[1..]| && keys[1..][i] == j;
          assert keys[i + 1] == j;
        }
        AddOpsMean(field, ops, keys[1..], parts', range', m);
      }
    }
  }

  lemma FinishMeans(field: string, parts: seq<Filter>, range: RangeBuilder, m: Metadata)
    ensures Matches(Finish(field, parts, range), m) <==> AllMatch(parts, m) && RangeHolds(field, range, m)
  {
    MatchSnoc(parts, Range(field, range.gte, range.gt, range.lte, range.lt), m);
  }

  lemma ParseFieldMeans(order: KeyOrder, field: string, v: Json, m: Metadata)
    requires ProperOrder(order)
    ensures ParseField(order, field, v).Ok? <==> FieldAccepted(v)
    ensures ParseField(order, field, v).Ok? ==>
              (Matches(ParseField(order, field, v).value, m) <==> FieldHolds(m, field, v))
  {
    hide AddOps, OpHolds, OpAccepted, Finish;
    if v.Obj? && HasAnyOp(v.fields) {
      var keys := order(v.fields.Keys);
      assert Enumerates(keys, v.fields.Keys);
      AddOpsMean(field, v.fields, keys, [], NO_RANGE, m);
      if AddOps(field, v.fields, keys, [], NO_RANGE).Ok? {
        var (parts, range) := AddOps(field, v.fields, keys, [], NO_RANGE).value;
        FinishMeans(field, parts, range, m);
      }
    }
  }

  // ----- The recursive grammar

  lemma {:induction false} KvMeans(order: KeyOrder, key: string, v: Json, m: Metadata)
    requires ProperOrder(order)
    ensures ParseKv(order, key, v).Ok? <==> EntryAccepted(key, v)
    ensures ParseKv(order, key, v).Ok? ==>
              (Matches(ParseKv(order, key, v).value, m) <==> EntryHolds(key, v, m))
    decreases v, 3
  {
    hide ParseField, FieldAccepted, FieldHolds, FromJson, ParseAll, Means, Accepts;
    if key == "$and" || key == "$or" {
      if v.Arr? {
        AllMean(order, v.items, [], m);
      }
    } else if key == "$not" {
      FromJsonMeans(order, v, m);
    } else {
      ParseFieldMeans(order, key, v, m);
    }
  }

  lemma {:induction false} AllMean(order: KeyOrder, items: seq<Json>, parts: seq<Filter>, m: Metadata)
    requires ProperOrder(order)
    ensures ParseAll(order, items, parts).Ok? <==> forall x | x in items :: Accepts(x)
    ensures ParseAll(order, items, parts).Ok? ==>
              var fs := ParseAll(order, items, parts).value;
              && (AllMatch(fs, m) <==> AllMatch(parts, m) && forall x | x in items :: Means(x, m))
              && (AnyMatch(fs, m) <==> AnyMatch(parts, m) || exists x | x in items :: Means(x, m))
    decreases items, 1
  {
    hide FromJson, Means, Accepts, AllMatch, AnyMatch;
    if items != [] {
      assert forall x :: x in items <==> x == items[0] || x in items[1..];
      FromJsonMeans(order, items[0], m);
      if FromJson(order, items[0]).Ok? {
        var f := FromJson(order, items[0]).value;
        MatchSnoc(parts, f, m);
        AllMean(order, items[1..], parts + [f], m);
      }
    }
  }

  lemma {:induction false} EntriesMean(order: KeyOrder, v: Json, keys: seq<string>, parts: seq<Filter>, m: Metadata)
    requires ProperOrder(order)
    requires v.Obj? && forall k | k in keys :: k in v.fields
    ensures ParseEntries(order, v, keys, parts).Ok? <==> forall k | k in keys :: EntryAccepted(k, v.fields[k])
    ensures ParseEntries(order, v, keys, parts).Ok? ==>
              var fs := ParseEntries(order, v, keys, parts).value;
              && |fs| == |parts| + |keys|
              && (AllMatch(fs, m) <==> AllMatch(parts, m) && forall k | k in keys :: EntryHolds(k, v.fields[k], m))
    decreases v, 1, |keys|
  {
    hide ParseKv, EntryHolds, EntryAccepted, AllMatch;
    if keys != [] {
      var k := keys[0];
      assert forall j :: j in keys <==> j == k || j in keys[1..];
      KvMeans(order, k, v.fields[k], m);
      if ParseKv(order, k, v.fields[k]).Ok? {
        var f := ParseKv(order, k, v.fields[k]).value;
        MatchSnoc(parts, f, m);
        EntriesMean(order, v, keys[1..], parts + [f], m);
      }
    }
  }

  /** A wire filter parses exactly when it is well formed, and the typed filter then matches the
    * metadata the wire filter admits, operator by operator: neither depends on the order of keys. */
  lemma {:induction false} FromJsonMeans(order: KeyOrder, v: Json, m: Metadata)
    requires ProperOrder(order)
    ensures FromJson(order, v).Ok? <==> Accepts(v)
    ensures FromJson(order, v).Ok? ==> (Matches(FromJson(order, v).value, m) <==> Means(v, m))
    decreases v, 2
  {
    hide ParseEntries, EntryHolds, EntryAccepted;
    if v.Obj? && v.fields != map[] {
      var keys := order(v.fields.Keys);
      assert Enumerates(keys, v.fields.Keys);
      EntriesMean(order, v, keys, [], m);
      if ParseEntries(order, v, keys, []).Ok? {
        var fs := ParseEntries(order, v, keys, []).value;
        if |fs| == 1 {
          assert fs == [fs[0]];
        }
      }
    }
  }
}
