/** The translation of typed filters to Qdrant conditions, and what the conditions mean for a point
  * whose payload holds scalars. */
module QdrantFilter {
  import Numbers
  import opened Wrappers
  import opened FilterDsl
  import opened FilterProofs

  datatype Condition =
    | MatchText(field: string, text: string)
    | MatchAnyText(field: string, texts: seq<string>)
    | MatchInt(field: string, n: int)
    | MatchBool(field: string, b: bool)
    | InRange(field: string, gte: Option<real>, gt: Option<real>, lte: Option<real>, lt: Option<real>)
    | Nested(filter: QFilter)

  datatype QFilter = QFilter(must: seq<Condition>, should: seq<Condition>, mustNot: seq<Condition>)

  // ----- What a point satisfies

  predicate Holds(c: Condition, m: Metadata)
    decreases c
  {
    match c
    case MatchText(field, text) => Lookup(m, field) == Some(Str(text))
    case MatchAnyText(field, texts) => field in m && m[field].Str? && m[field].s in texts
    case MatchInt(field, n) => Lookup(m, field) == Some(Int(n))
    case MatchBool(field, b) => Lookup(m, field) == Some(Bool(b))
    case InRange(field, gte, gt, lte, lt) =>
      NumberAt(m, field).Some? && WithinBounds(NumberAt(m, field).value, gte, gt, lte, lt)
    case Nested(filter) => Satisfies(filter, m)
  }

  predicate Satisfies(f: QFilter, m: Metadata)
    decreases f
  {
    (forall c | c in f.must :: Holds(c, m)) &&
    (f.should != [] ==> exists c | c in f.should :: Holds(c, m)) &&
    (forall c | c in f.mustNot :: !Holds(c, m))
  }

  predicate IsScalar(v: Json) {
    !v.Arr? && !v.Obj?
  }

  /** Payload fields are scalars: on a list Qdrant would match any element. */
  predicate ScalarMetadata(m: Metadata) {
    forall k | k in m :: IsScalar(m[k])
  }

  // ----- The translation

  function AsI64(v: Json): Option<int> {
    if v.Int? && Numbers.I64_MIN <= v.n <= Numbers.I64_MAX then Some(v.n) else None
  }

  function MatchCondition(field: string, v: Json): Option<Condition> {
    match v
    case Str(s) => Some(MatchText(field, s))
    case Bool(b) => Some(MatchBool(field, b))
    case Int(_) => if AsI64(v).Some? then Some(MatchInt(field, AsI64(v).value)) else None
    case _ => None
  }

  /** The strings among the values. */
  function Texts(values: seq<Json>): (r: seq<string>)
    ensures |r| <= |values|
  {
    if values == [] then [] else (if values[0].Str? then [values[0].s] else []) + Texts(values[1..])
  }

  /** The 64-bit integers among the values. */
  function Ints(values: seq<Json>): (r: seq<int>)
    ensures |r| <= |values|
  {
    if values == [] then []
    else (if AsI64(values[0]).Some? then [AsI64(values[0]).value] else []) + Ints(values[1..])
  }

  function IntMatches(field: string, ns: seq<int>): (r: seq<Condition>)
    ensures |r| == |ns|
  {
    if ns == [] then [] else [MatchInt(field, ns[0])] + IntMatches(field, ns[1..])
  }

  function MatchAll(field: string, values: seq<Json>): Option<seq<Condition>> {
    if values == [] then Some([])
    else
      match (MatchCondition(field, values[0]), MatchAll(field, values[1..]))
      case (Some(c), Some(cs)) => Some([c] + cs)
      case _ => None
  }

  function InConditions(field: string, values: seq<Json>): Option<seq<Condition>> {
    var strings := Texts(values);
    if |strings| == |values| && strings != [] then Some([MatchAnyText(field, strings)])
    else
      var ints := Ints(values);
      if |ints| == |values| && ints != [] then Some([Nested(QFilter([], IntMatches(field, ints), []))]) else None
  }

  function Conditions(f: Filter): Option<seq<Condition>>
    decreases f, 0
  {
    match f
    case All => Some([])
    case Eq(field, value) =>
      (match MatchCondition(field, value)
       case Some(c) => Some([c])
       case None => None)
    case Ne(field, value) =>
      (match MatchCondition(field, value)
       case Some(c) => Some([Nested(QFilter([], [], [c]))])
       case None => None)
    case In(field, values) => InConditions(field, values)
    case NotIn(field, values) =>
      (match MatchAll(field, values)
       case Some(cs) => Some([Nested(QFilter([], [], cs))])
       case None => None)
    case Range(field, gte, gt, lte, lt) => Some([InRange(field, gte, gt, lte, lt)])
    case And(parts) => AllConditions(parts)
    case Or(_) => None
    case Not(_) => None
  }

  function AllConditions(parts: seq<Filter>): Option<seq<Condition>>
    decreases parts, 1
  {
    if parts == [] then Some([])
    else
      match (Conditions(parts[0]), AllConditions(parts[1..]))
      case (Some(a), Some(b)) => Some(a + b)
      case _ => None
  }

  /** `push_conditions`: append the conditions of `f` to `out`, or give up. */
  method PushConditions(f: Filter, before: seq<Condition>) returns (ok: bool, out: seq<Condition>)
    ensures ok <==> Conditions(f).Some?
    ensures ok ==> out == before + Conditions(f).value
    decreases f
  {
    out := before;
    match f {
      case All =>
        assert before + [] == before;
        return true, out;
      case Eq(field, value) =>
        var c := MatchCondition(field, value);
        if c.None? {
          return false, out;
        }
        out := out + [c.value];
        return true, out;
      case Ne(field, value) =>
        var c := MatchCondition(field, value);
        if c.None? {
          return false, out;
        }
        out := out + [Nested(QFilter([], [], [c.value]))];
        return true, out;
      case In(field, values) =>
        var cs := InConditions(field, values);
        if cs.None? {
          return false, out;
        }
        return true, out + cs.value;
      case NotIn(field, values) =>
        var conds: seq<Condition> := [];
        for i := 0 to |values|
          invariant MatchAll(field, values).Some? <==> MatchAll(field, values[i..]).Some?
          invariant MatchAll(field, values).Some? ==>
                      MatchAll(field, values).value == conds + MatchAll(field, values[i..]).value
        {
          assert values[i..][1..] == values[i + 1..];
          var c := MatchCondition(field, values[i]);
          if c.None? {
            return false, out;
          }
          ghost var was := conds;
          conds := conds + [c.value];
          assert forall cs: seq<Condition> :: was + ([c.value] + cs) == conds + cs;
        }
        assert conds + [] == conds;
        out := out + [Nested(QFilter([], [], conds))];
        return true, out;
      case Range(field, gte, gt, lte, lt) =>
        out := out + [InRange(field, gte, gt, lte, lt)];
        return true, out;
      case And(parts) =>
        for i := 0 to |parts|
          invariant AllConditions(parts).Some? <==> AllConditions(parts[i..]).Some?
          invariant AllConditions(parts).Some? ==>
                      before + AllConditions(parts).value == out + AllConditions(parts[i..]).value
        {
          assert parts[i..][1..] == parts[i + 1..];
          ghost var was := out;
          ok, out := PushConditions(parts[i], out);
          if !ok {
            return false, out;
          }
          assert forall cs: seq<Condition> :: was + (Conditions(parts[i]).value + cs) == out + cs;
        }
        assert out + [] == out;
        return true, out;
      case Or(_) => return false, out;
      case Not(_) => return false, out;
    }
  }

  /** `value_to_filter`: no native filter when nothing can or need be translated. */
  function ValueToFilter(order: KeyOrder, v: Json): Option<QFilter>
    requires forall s, k :: k in order(s) ==> k in s
  {
    match FromJson(order, v)
    case Err(_) => None
    case Ok(f) =>
      if f.All? || !IsQdrantNative(f) then None
      else
        match Conditions(f)
        case None => None
        case Some(must) => if must == [] then None else Some(QFilter(must, [], []))
  }

  // ----- What the translation keeps

  predicate AllHold(cs: seq<Condition>, m: Metadata) {
    forall c | c in cs :: Holds(c, m)
  }

  lemma MatchConditionMeans(field: string, v: Json, m: Metadata)
    requires MatchCondition(field, v).Some?
    ensures Holds(MatchCondition(field, v).value, m) <==> Lookup(m, field) == Some(v)
  {
  }

  lemma {:induction false} TextsMean(values: seq<Json>, v: Json)
    requires |Texts(values)| == |values|
    ensures v in values <==> v.Str? && v.s in Texts(values)
    decreases |values|
  {
    if values != [] {
      assert forall x :: x in values <==> x == values[0] || x in values[1..];
      TextsMean(values[1..], v);
    }
  }

  lemma {:induction false} IntsMean(values: seq<Json>, v: Json)
    requires |Ints(values)| == |values|
    ensures v in values <==> v.Int? && v.n in Ints(values)
    decreases |values|
  {
    if values != [] {
      assert forall x :: x in values <==> x == values[0] || x in values[1..];
      IntsMean(values[1..], v);
    }
  }

  lemma IntHolds(field: string, n: int, m: Metadata)
    ensures Holds(MatchInt(field, n), m) <==> Lookup(m, field) == Some(Int(n))
  {
  }

  lemma SingleHolds(c: Condition, m: Metadata)
    ensures AllHold([c], m) <==> Holds(c, m)
  {
    hide Holds;
    assert c in [c];
  }

  lemma {:induction false} IntMatchesMean(field: string, ns: seq<int>, m: Metadata)
    ensures (exists c | c in IntMatches(field, ns) :: Holds(c, m))
            <==> exists n | n in ns :: Lookup(m, field) == Some(Int(n))
    decreases |ns|
  {
    if ns != [] {
      hide Holds;
      var c := MatchInt(field, ns[0]);
      IntHolds(field, ns[0], m);
      assert forall d :: d in IntMatches(field, ns) <==> d == c || d in IntMatches(field, ns[1..]);
      assert forall n :: n in ns <==> n == ns[0] || n in ns[1..];
      IntMatchesMean(field, ns[1..], m);
    }
  }

  lemma InConditionsMean(field: string, values: seq<Json>, m: Metadata)
    requires InConditions(field, values).Some?
    ensures AllHold(InConditions(field, values).value, m) <==> Matches(In(field, values), m)
  {
    hide Texts, Ints, IntMatches;
    var strings, ints := Texts(values), Ints(values);
    if |strings| == |values| && strings != [] {
      if field in m {
        TextsMean(values, m[field]);
      }
      assert InConditions(field, values).value == [MatchAnyText(field, strings)];
      SingleHolds(MatchAnyText(field, strings), m);
    } else {
      IntMatchesMean(field, ints, m);
      if field in m {
        IntsMean(values, m[field]);
      }
      var q := QFilter([], IntMatches(field, ints), []);
      assert InConditions(field, values).value == [Nested(q)];
      SingleHolds(Nested(q), m);
      assert Holds(Nested(q), m) <==> Satisfies(q, m);
    }
  }

  lemma {:induction false} MatchAllMeans(field: string, values: seq<Json>, m: Metadata)
    requires MatchAll(field, values).Some?
    ensures (forall c | c in MatchAll(field, values).value :: !Holds(c, m))
            <==> forall v | v in values :: Lookup(m, field) != Some(v)
    decreases |values|
  {
    hide Holds;
    if values != [] {
      var c, cs := MatchCondition(field, values[0]).value, MatchAll(field, values[1..]).value;
      assert forall d :: d in [c] + cs <==> d == c || d in cs;
      assert forall v :: v in values <==> v == values[0] || v in values[1..];
      MatchConditionMeans(field, values[0], m);
      MatchAllMeans(field, values[1..], m);
    }
  }

  lemma NestedNotMeans(cs: seq<Condition>, m: Metadata)
    ensures AllHold([Nested(QFilter([], [], cs))], m) <==> forall c | c in cs :: !Holds(c, m)
  {
    var q := QFilter([], [], cs);
    assert Holds(Nested(q), m) <==> Satisfies(q, m);
  }

  /** Whenever the translation succeeds, a point with scalar metadata satisfies all the conditions
    * exactly when the filter matches its metadata. */
  lemma {:induction false} ConditionsMean(f: Filter, m: Metadata)
    requires ScalarMetadata(m) && Conditions(f).Some?
    ensures AllHold(Conditions(f).value, m) <==> Matches(f, m)
    decreases f, 0
  {
    hide ScalarMetadata, InConditions, MatchAll, AllConditions, Holds;
    match f {
      case All =>
      case Eq(field, value) => MatchConditionMeans(field, value, m);
      case Ne(field, value) =>
        MatchConditionMeans(field, value, m);
        NestedNotMeans([MatchCondition(field, value).value], m);
      case In(field, values) => InConditionsMean(field, values, m);
      case NotIn(field, values) =>
        MatchAllMeans(field, values, m);
        NestedNotMeans(MatchAll(field, values).value, m);
      case Range(field, gte, gt, lte, lt) => RangeMeans(f, m);
      case And(parts) => AllConditionsMean(parts, m);
    }
  }

  lemma RangeMeans(f: Filter, m: Metadata)
    requires f.Range?
    ensures AllHold(Conditions(f).value, m) <==> Matches(f, m)
  {
    var c := InRange(f.field, f.gte, f.gt, f.lte, f.lt);
    assert Conditions(f).value == [c];
    SingleHolds(c, m);
  }

  lemma {:induction false} AllConditionsMean(parts: seq<Filter>, m: Metadata)
    requires ScalarMetadata(m) && AllConditions(parts).Some?
    ensures AllHold(AllConditions(parts).value, m) <==> forall p | p in parts :: Matches(p, m)
    decreases parts, 1
  {
    hide ScalarMetadata, Conditions, Holds, Matches;
    if parts != [] {
      var a, b := Conditions(parts[0]).value, AllConditions(parts[1..]).value;
      assert forall c :: c in a + b <==> c in a || c in b;
      assert forall p :: p in parts <==> p == parts[0] || p in parts[1..];
      ConditionsMean(parts[0], m);
      AllConditionsMean(parts[1..], m);
    }
  }

  // ----- Exactly which filters translate

  predicate Translatable(f: Filter)
    decreases f
  {
    match f
    case Eq(field, value) => MatchCondition(field, value).Some?
    case Ne(field, value) => MatchCondition(field, value).Some?
    case In(_, values) =>
      values != [] && ((forall v | v in values :: v.Str?) || (forall v | v in values :: AsI64(v).Some?))
    case NotIn(field, values) => forall v | v in values :: MatchCondition(field, v).Some?
    case And(parts) => forall p | p in parts :: Translatable(p)
    case Or(_) => false
    case Not(_) => false
    case _ => true
  }

  lemma {:induction false} TextsCount(values: seq<Json>)
    ensures |Texts(values)| == |values| <==> forall v | v in values :: v.Str?
    decreases |values|
  {
    if values != [] {
      assert forall x :: x in values <==> x == values[0] || x in values[1..];
      TextsCount(values[1..]);
    }
  }

  lemma {:induction false} IntsCount(values: seq<Json>)
    ensures |Ints(values)| == |values| <==> forall v | v in values :: AsI64(v).Some?
    decreases |values|
  {
    if values != [] {
      assert forall x :: x in values <==> x == values[0] || x in values[1..];
      IntsCount(values[1..]);
    }
  }

  lemma {:induction false} MatchAllTranslates(field: string, values: seq<Json>)
    ensures MatchAll(field, values).Some? <==> forall v | v in values :: MatchCondition(field, v).Some?
    decreases |values|
  {
    if values != [] {
      assert forall x :: x in values <==> x == values[0] || x in values[1..];
      MatchAllTranslates(field, values[1..]);
    }
  }

  /** The translation succeeds exactly on the translatable filters, and those are native. */
  lemma {:induction false} TranslatesExactly(f: Filter)
    ensures Conditions(f).Some? <==> Translatable(f)
    ensures Translatable(f) ==> IsQdrantNative(f)
    decreases f, 0
  {
    hide MatchCondition, MatchAll, AllConditions, AsI64, Texts, Ints;
    match f {
      case In(field, values) =>
        TextsCount(values);
        IntsCount(values);
      case NotIn(field, values) => MatchAllTranslates(field, values);
      case And(parts) => AllTranslate(parts);
      case _ =>
    }
  }

  lemma {:induction false} AllTranslate(parts: seq<Filter>)
    ensures AllConditions(parts).Some? <==> forall p | p in parts :: Translatable(p)
    ensures forall p | p in parts :: Translatable(p) ==> IsQdrantNative(p)
    decreases parts, 1
  {
    hide Conditions, Translatable, IsQdrantNative;
    if parts != [] {
      assert forall p :: p in parts <==> p == parts[0] || p in parts[1..];
      TranslatesExactly(parts[0]);
      AllTranslate(parts[1..]);
    }
  }

  /** From the wire to the native filter: whatever is sent to Qdrant admits exactly the scalar metadata
    * the wire filter means. */
  lemma NativeFilterMeans(order: KeyOrder, v: Json, m: Metadata)
    requires ProperOrder(order) && ScalarMetadata(m)
    requires ValueToFilter(order, v).Some?
    ensures Satisfies(ValueToFilter(order, v).value, m) <==> Means(v, m)
  {
    hide FromJson, Conditions, Means, Matches, ScalarMetadata, IsQdrantNative;
    FromJsonMeans(order, v, m);
    ConditionsMean(FromJson(order, v).value, m);
  }
}
