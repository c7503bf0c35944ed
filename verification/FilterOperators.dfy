/** What the operators of the filter language ask of a value, told on the values themselves, and that parsed
  * filters and the conditions sent to Qdrant ask exactly that. */
module FilterOperators {
  import opened Wrappers
  import opened FilterDsl
  import opened FilterProofs
  import opened QdrantFilter
  import W = QdrantWire

  predicate IsNumber(v: Json) {
    v.Int? || v.Float?
  }

  /** Smaller than, on numbers of either kind; nothing else is smaller than anything. */
  predicate Below(a: Json, b: Json) {
    match (a, b)
    case (Int(x), Int(y)) => x < y
    case (Int(x), Float(y)) => x as real < y
    case (Float(x), Int(y)) => x < y as real
    case (Float(x), Float(y)) => x < y
    case _ => false
  }

  /** What an operator asks of a field's value `a`. */
  predicate Asks(op: string, a: Json, v: Json) {
    if op == "$eq" then a == v
    else if op == "$ne" then a != v
    else if op == "$in" then v.Arr? && a in v.items
    else if op == "$nin" then v.Arr? && a !in v.items
    else if op == "$lt" then Below(a, v)
    else if op == "$gt" then Below(v, a)
    else if op == "$lte" then IsNumber(a) && IsNumber(v) && !Below(v, a)
    else op == "$gte" && IsNumber(a) && IsNumber(v) && !Below(a, v)
  }

  /** What it asks of a record without the field. */
  predicate AsksAbsent(op: string, v: Json) {
    op == "$ne" || (op == "$nin" && v.Arr?)
  }

  /** The operand an operator takes. */
  predicate Takes(op: string, v: Json) {
    || op == "$eq" || op == "$ne"
    || ((op == "$in" || op == "$nin") && v.Arr?)
    || ((op == "$lt" || op == "$gt" || op == "$lte" || op == "$gte") && IsNumber(v))
  }

  lemma OpAsks(m: Metadata, field: string, op: string, v: Json)
    ensures OpAccepted(op, v) <==> Takes(op, v)
    ensures OpAccepted(op, v) ==>
              (OpHolds(m, field, op, v) <==> if field in m then Asks(op, m[field], v) else AsksAbsent(op, v))
  {
  }

  lemma OperatorNames()
    ensures forall op, v :: Takes(op, v) ==> IsOperator(op)
  {
  }

  /** The filter `{field: {op: v, ...}}`. */
  function OnField(field: string, ops: map<string, Json>): Json {
    Obj(map[field := Obj(ops)])
  }

  predicate AllTaken(ops: map<string, Json>) {
    forall op | op in ops :: Takes(op, ops[op])
  }

  predicate AllAsk(ops: map<string, Json>, m: Metadata, field: string) {
    forall op | op in ops :: if field in m then Asks(op, m[field], ops[op]) else AsksAbsent(op, ops[op])
  }

  lemma OnFieldMeans(field: string, ops: map<string, Json>, m: Metadata)
    requires field == "" || field[0] != '$'
    requires exists op | op in ops :: Takes(op, ops[op])
    ensures Accepts(OnField(field, ops)) <==> AllTaken(ops)
    ensures AllTaken(ops) ==> (Means(OnField(field, ops), m) <==> AllAsk(ops, m, field))
  {
    hide Asks, AsksAbsent, Takes, OpAccepted, OpHolds;
    OperatorNames();
    var v := Obj(ops);
    var filter := OnField(field, ops);
    assert filter.fields[field] == v && HasAnyOp(ops);
    forall op | op in ops
      ensures OpAccepted(op, ops[op]) <==> Takes(op, ops[op])
      ensures OpAccepted(op, ops[op]) ==>
                (OpHolds(m, field, op, ops[op]) <==> if field in m then Asks(op, m[field], ops[op]) else AsksAbsent(op, ops[op]))
    {
      OpAsks(m, field, op, ops[op]);
    }
    PlainKey(field, v, m);
    assert forall k :: k in filter.fields <==> k == field;
  }

  lemma PlainKey(field: string, v: Json, m: Metadata)
    requires field == "" || field[0] != '$'
    ensures EntryAccepted(field, v) <==> FieldAccepted(v)
    ensures EntryHolds(field, v, m) <==> FieldHolds(m, field, v)
  {
    hide FieldAccepted, FieldHolds;
  }

  /** Operators on one field, any number of them and in any order of keys: the filter parses exactly when each has
    * an operand it takes, and then matches exactly the metadata each of them asks for. */
  lemma OperatorsMatch(order: KeyOrder, field: string, ops: map<string, Json>, m: Metadata)
    requires ProperOrder(order) && (field == "" || field[0] != '$')
    requires exists op | op in ops :: Takes(op, ops[op])
    ensures FromJson(order, OnField(field, ops)).Ok? <==> AllTaken(ops)
    ensures AllTaken(ops) ==>
              (Matches(FromJson(order, OnField(field, ops)).value, m) <==> AllAsk(ops, m, field))
  {
    hide FromJson, Matches, Accepts, Means, AllAsk, AllTaken, OnField, Takes;
    OnFieldMeans(field, ops, m);
    FromJsonMeans(order, OnField(field, ops), m);
  }

  /** A field with a plain value asks for that value. */
  lemma ValueMatches(order: KeyOrder, field: string, v: Json, m: Metadata)
    requires ProperOrder(order) && (field == "" || field[0] != '$')
    requires v.Obj? ==> forall k | k in v.fields :: k == "" || k[0] != '$'
    ensures FromJson(order, Obj(map[field := v])).Ok?
    ensures Matches(FromJson(order, Obj(map[field := v])).value, m) <==> field in m && m[field] == v
  {
    var filter := Obj(map[field := v]);
    FromJsonMeans(order, filter, m);
    hide FromJson, Matches;
    PlainKey(field, v, m);
    assert filter.fields[field] == v;
    assert forall k :: k in filter.fields <==> k == field;
  }

  // ----- Single comparisons, in numbers

  /** `{field: {op: v}}` */
  lemma OneOperator(order: KeyOrder, field: string, op: string, v: Json, m: Metadata)
    requires ProperOrder(order) && (field == "" || field[0] != '$') && Takes(op, v)
    ensures FromJson(order, OnField(field, map[op := v])).Ok?
    ensures Matches(FromJson(order, OnField(field, map[op := v])).value, m) <==>
            if field in m then Asks(op, m[field], v) else AsksAbsent(op, v)
  {
    hide FromJson, Matches, OnField, Takes, Asks, AsksAbsent;
    var ops := map[op := v];
    assert ops[op] == v && forall k :: k in ops <==> k == op;
    OperatorsMatch(order, field, ops, m);
  }

  predicate Compares(op: string, x: real, bound: real) {
    if op == "$gte" then x >= bound
    else if op == "$gt" then x > bound
    else if op == "$lte" then x <= bound
    else x < bound
  }

  predicate Admitted(order: KeyOrder, field: string, op: string, v: Json, m: Metadata)
    requires ProperOrder(order)
  {
    var f := FromJson(order, OnField(field, map[op := v]));
    f.Ok? && Matches(f.value, m)
  }

  /** The range operators compare numbers as numbers, whichever way each is written, and admit nothing else:
    * no text, truth value, null, list or object, and no record without the field. */
  lemma RangesCompare(order: KeyOrder, field: string, op: string, m: Metadata, a: int, b: int, x: real, y: real)
    requires ProperOrder(order) && (field == "" || field[0] != '$')
    requires op == "$gte" || op == "$gt" || op == "$lte" || op == "$lt"
    ensures Admitted(order, field, op, Int(b), m[field := Int(a)]) <==> Compares(op, a as real, b as real)
    ensures Admitted(order, field, op, Float(y), m[field := Float(x)]) <==> Compares(op, x, y)
    ensures Admitted(order, field, op, Float(y), m[field := Int(a)]) <==> Compares(op, a as real, y)
    ensures Admitted(order, field, op, Int(b), m[field := Float(x)]) <==> Compares(op, x, b as real)
    ensures forall v :: !IsNumber(v) ==> !Admitted(order, field, op, Int(b), m[field := v])
    ensures forall v :: !IsNumber(v) ==> !Admitted(order, field, op, Float(y), m[field := v])
    ensures field !in m ==> !Admitted(order, field, op, Int(b), m) && !Admitted(order, field, op, Float(y), m)
  {
    hide FromJson, Matches, OnField;
    forall m': Metadata, v | IsNumber(v)
      ensures Admitted(order, field, op, v, m') <==> field in m' && Asks(op, m'[field], v)
    {
      OneOperator(order, field, op, v, m');
    }
  }

  /** For instance, ages from 18 on: 17 is out, 18 and 20 are in. */
  lemma Adults(order: KeyOrder)
    requires ProperOrder(order)
    ensures !Admitted(order, "age", "$gte", Int(18), map["age" := Int(17)])
    ensures Admitted(order, "age", "$gte", Int(18), map["age" := Int(18)])
    ensures Admitted(order, "age", "$gte", Int(18), map["age" := Int(20)])
  {
    hide Admitted;
    var m: Metadata := map[];
    RangesCompare(order, "age", "$gte", m, 17, 18, 0.0, 0.0);
    RangesCompare(order, "age", "$gte", m, 18, 18, 0.0, 0.0);
    RangesCompare(order, "age", "$gte", m, 20, 18, 0.0, 0.0);
  }

  /** An operator no one knows, alone or beside others, is refused. */
  lemma UnknownRefused(order: KeyOrder, field: string, ops: map<string, Json>, op: string, m: Metadata)
    requires ProperOrder(order) && (field == "" || field[0] != '$')
    requires op in ops && op != "" && op[0] == '$'
    requires op !in {"$eq", "$ne", "$in", "$nin", "$gte", "$gt", "$lte", "$lt"}
    ensures FromJson(order, OnField(field, ops)).Err?
  {
    hide FromJson;
    var v := Obj(ops);
    assert IsOperator(op) && HasAnyOp(ops);
    assert !OpAccepted(op, ops[op]);
    assert OnField(field, ops).fields[field] == v;
    PlainKey(field, v, m);
    FromJsonMeans(order, OnField(field, ops), m);
  }

  // ----- The conditions sent to Qdrant

  /** For operators on one field that Qdrant can express, a point with scalar fields satisfies the native filter
    * exactly when each operator asks for its value. */
  lemma PointsAsked(order: KeyOrder, field: string, ops: map<string, Json>, m: Metadata)
    requires ProperOrder(order) && (field == "" || field[0] != '$') && ScalarMetadata(m)
    requires (exists op | op in ops :: Takes(op, ops[op])) && AllTaken(ops)
    requires forall op | op in ops :: W.OpSent(op, ops[op])
    ensures
      var q := ValueToFilter(order, OnField(field, ops));
      q.Some? && (Satisfies(q.value, m) <==> AllAsk(ops, m, field))
  {
    hide ValueToFilter, Satisfies, Means, Accepts, AllAsk, AllTaken, Takes, ScalarMetadata;
    OnFieldMeans(field, ops, m);
    OnFieldSent(field, ops);
    W.SendsExactly(order, OnField(field, ops));
    NativeFilterMeans(order, OnField(field, ops), m);
  }

  lemma OnFieldSent(field: string, ops: map<string, Json>)
    requires field == "" || field[0] != '$'
    requires exists op | op in ops :: Takes(op, ops[op])
    requires forall op | op in ops :: W.OpSent(op, ops[op])
    ensures W.Expressible(OnField(field, ops)) && !W.AsksNothing(OnField(field, ops))
  {
    hide Takes, W.OpSent;
    OperatorNames();
    var filter := OnField(field, ops);
    assert filter.fields[field] == Obj(ops) && HasAnyOp(ops);
    assert forall k :: k in filter.fields <==> k == field;
    assert W.EntryExpressible(field, Obj(ops));
    assert !W.EntryAsksNothing(field, Obj(ops));
  }
}
