/** The filter language of the vector stores: wire JSON, the typed filter parsed from it, and what
  * both mean for a chunk's metadata. */
module FilterDsl {
  import opened Wrappers

  /** JSON with numbers kept as integers or reals. */
  datatype Json =
    | Null
    | Bool(b: bool)
    | Int(n: int)
    | Float(r: real)
    | Str(s: string)
    | Arr(items: seq<Json>)
    | Obj(fields: map<string, Json>)

  type Metadata = map<string, Json>

  datatype Filter =
    | Eq(field: string, value: Json)
    | Ne(field: string, value: Json)
    | In(field: string, values: seq<Json>)
    | NotIn(field: string, values: seq<Json>)
    | Range(field: string, gte: Option<real>, gt: Option<real>, lte: Option<real>, lt: Option<real>)
    | And(parts: seq<Filter>)
    | Or(parts: seq<Filter>)
    | Not(inner: Filter)
    | All

  datatype ParseError = NotObject | BadOperator(op: string) | UnknownOperator(op: string)

  datatype Parsed<+T> = Ok(value: T) | Err(error: ParseError)

  // ----- Meaning of a typed filter

  function Lookup(m: Metadata, field: string): Option<Json> {
    if field in m then Some(m[field]) else None
  }

  function AsReal(v: Json): Option<real> {
    match v
    case Int(n) => Some(n as real)
    case Float(r) => Some(r)
    case _ => None
  }

  function NumberAt(m: Metadata, field: string): Option<real> {
    match Lookup(m, field)
    case Some(v) => AsReal(v)
    case None => None
  }

  predicate WithinBounds(x: real, gte: Option<real>, gt: Option<real>, lte: Option<real>, lt: Option<real>) {
    (gte.Some? ==> x >= gte.value) && (gt.Some? ==> x > gt.value) &&
    (lte.Some? ==> x <= lte.value) && (lt.Some? ==> x < lt.value)
  }

  predicate Matches(f: Filter, m: Metadata)
    decreases f
  {
    match f
    case All => true
    case Eq(field, value) => Lookup(m, field) == Some(value)
    case Ne(field, value) => Lookup(m, field) != Some(value)
    case In(field, values) => field in m && m[field] in values
    case NotIn(field, values) => field in m ==> m[field] !in values
    case Range(field, gte, gt, lte, lt) =>
      NumberAt(m, field).Some? && WithinBounds(NumberAt(m, field).value, gte, gt, lte, lt)
    case And(parts) => forall p | p in parts :: Matches(p, m)
    case Or(parts) => exists p | p in parts :: Matches(p, m)
    case Not(inner) => !Matches(inner, m)
  }

  /** The operators Qdrant is said to express natively. */
  predicate IsQdrantNative(f: Filter)
    decreases f
  {
    match f
    case And(parts) => forall p | p in parts :: IsQdrantNative(p)
    case Or(_) => false
    case Not(_) => false
    case _ => true
  }

  // ----- Meaning of the wire form, operator by operator

  predicate IsOperator(key: string) {
    "$" <= key
  }

  predicate HasAnyOp(fields: map<string, Json>) {
    exists k | k in fields :: IsOperator(k)
  }

  /** One operator of one field. */
  predicate OpHolds(m: Metadata, field: string, op: string, v: Json) {
    if op == "$eq" then Lookup(m, field) == Some(v)
    else if op == "$ne" then Lookup(m, field) != Some(v)
    else if op == "$in" then v.Arr? && field in m && m[field] in v.items
    else if op == "$nin" then v.Arr? && (field in m ==> m[field] !in v.items)
    else
      NumberAt(m, field).Some? && AsReal(v).Some? &&
      var x, bound := NumberAt(m, field).value, AsReal(v).value;
      (op == "$gte" && x >= bound) || (op == "$gt" && x > bound) ||
      (op == "$lte" && x <= bound) || (op == "$lt" && x < bound)
  }

  predicate FieldHolds(m: Metadata, field: string, v: Json) {
    if v.Obj? && HasAnyOp(v.fields) then forall op | op in v.fields :: OpHolds(m, field, op, v.fields[op])
    else Lookup(m, field) == Some(v)
  }

  /** What a wire filter means: every entry holds. */
  predicate Means(v: Json, m: Metadata)
    decreases v, 0
  {
    v.Obj? && forall k | k in v.fields :: EntryHolds(k, v.fields[k], m)
  }

  predicate EntryHolds(key: string, v: Json, m: Metadata)
    decreases v, 1
  {
    if key == "$and" then v.Arr? && forall x | x in v.items :: Means(x, m)
    else if key == "$or" then v.Arr? && exists x | x in v.items :: Means(x, m)
    else if key == "$not" then !Means(v, m)
    else FieldHolds(m, key, v)
  }

  // ----- Which wire filters are accepted

  predicate IsRangeOp(op: string) {
    op == "$gte" || op == "$gt" || op == "$lte" || op == "$lt"
  }

  predicate OpAccepted(op: string, v: Json) {
    op == "$eq" || op == "$ne" || ((op == "$in" || op == "$nin") && v.Arr?) || (IsRangeOp(op) && AsReal(v).Some?)
  }

  predicate FieldAccepted(v: Json) {
    v.Obj? && HasAnyOp(v.fields) ==> forall op | op in v.fields :: OpAccepted(op, v.fields[op])
  }

  predicate Accepts(v: Json)
    decreases v, 0
  {
    v.Obj? && forall k | k in v.fields :: EntryAccepted(k, v.fields[k])
  }

  predicate EntryAccepted(key: string, v: Json)
    decreases v, 1
  {
    if key == "$and" || key == "$or" then v.Arr? && forall x | x in v.items :: Accepts(x)
    else if key == "$not" then Accepts(v)
    else !IsOperator(key) && FieldAccepted(v)
  }

  // ----- Parsing

  /** The order in which an object's keys are visited. */
  type KeyOrder = set<string> -> seq<string>

  /** Each key exactly once. */
  ghost predicate Enumerates(keys: seq<string>, s: set<string>) {
    (forall k :: k in keys <==> k in s) && forall i, j :: 0 <= i < j < |keys| ==> keys[i] != keys[j]
  }

  ghost predicate ProperOrder(order: KeyOrder) {
    forall s :: Enumerates(order(s), s)
  }

  /** The range operators seen so far. */
  datatype RangeBuilder = RangeBuilder(gte: Option<real>, gt: Option<real>, lte: Option<real>, lt: Option<real>) {
    predicate Any() {
      gte.Some? || gt.Some? || lte.Some? || lt.Some?
    }
  }

  const NO_RANGE := RangeBuilder(None, None, None, None)

  /** What one operator adds to the parts and the range. */
  function AddOp(field: string, op: string, v: Json, parts: seq<Filter>, range: RangeBuilder)
    : Parsed<(seq<Filter>, RangeBuilder)>
  {
    if op == "$eq" then Ok((parts + [Eq(field, v)], range))
    else if op == "$ne" then Ok((parts + [Ne(field, v)], range))
    else if op == "$in" then if v.Arr? then Ok((parts + [In(field, v.items)], range)) else Err(BadOperator(op))
    else if op == "$nin" then if v.Arr? then Ok((parts + [NotIn(field, v.items)], range)) else Err(BadOperator(op))
    else if IsRangeOp(op) then
      match AsReal(v)
      case None => Err(BadOperator(op))
      case Some(x) =>
        Ok((parts,
            if op == "$gte" then range.(gte := Some(x))
            else if op == "$gt" then range.(gt := Some(x))
            else if op == "$lte" then range.(lte := Some(x))
            else range.(lt := Some(x))))
    else Err(UnknownOperator(op))
  }

  function AddOps(field: string, ops: map<string, Json>, keys: seq<string>, parts: seq<Filter>, range: RangeBuilder)
    : Parsed<(seq<Filter>, RangeBuilder)>
    requires forall k | k in keys :: k in ops
    decreases |keys|
  {
    if keys == [] then Ok((parts, range))
    else
      match AddOp(field, keys[0], ops[keys[0]], parts, range)
      case Err(e) => Err(e)
      case Ok((parts', range')) => AddOps(field, ops, keys[1..], parts', range')
  }

  function Finish(field: string, parts: seq<Filter>, range: RangeBuilder): Filter {
    var all :=
      if range.Any() then parts + [Range(field, range.gte, range.gt, range.lte, range.lt)] else parts;
    if |all| == 0 then All else if |all| == 1 then all[0] else And(all)
  }

  function ParseFieldOps(field: string, ops: map<string, Json>, keys: seq<string>): Parsed<Filter>
    requires forall k | k in keys :: k in ops
  {
    match AddOps(field, ops, keys, [], NO_RANGE)
    case Err(e) => Err(e)
    case Ok((parts, range)) => Ok(Finish(field, parts, range))
  }

  method BuildFieldOps(field: string, ops: map<string, Json>, keys: seq<string>) returns (r: Parsed<Filter>)
    requires forall k | k in keys :: k in ops
    ensures r == ParseFieldOps(field, ops, keys)
  {
    var parts: seq<Filter> := [];
    var range := NO_RANGE;
    for i := 0 to |keys|
      invariant AddOps(field, ops, keys[i..], parts, range) == AddOps(field, ops, keys, [], NO_RANGE)
    {
      assert keys[i..][1..] == keys[i + 1..];
      match AddOp(field, keys[i], ops[keys[i]], parts, range) {
        case Err(e) => return Err(e);
        case Ok((parts', range')) =>
          parts := parts';
          range := range';
      }
    }
    if range.Any() {
      parts := parts + [Range(field, range.gte, range.gt, range.lte, range.lt)];
    }
    if |parts| == 0 {
      return Ok(All);
    } else if |parts| == 1 {
      return Ok(parts[0]);
    } else {
      return Ok(And(parts));
    }
  }

  function ParseField(order: KeyOrder, field: string, v: Json): Parsed<Filter>
    requires forall s, k :: k in order(s) ==> k in s
  {
    if v.Obj? && HasAnyOp(v.fields) then ParseFieldOps(field, v.fields, order(v.fields.Keys)) else Ok(Eq(field, v))
  }

  function FromJson(order: KeyOrder, v: Json): Parsed<Filter>
    requires forall s, k :: k in order(s) ==> k in s
    decreases v, 2
  {
    if !v.Obj? then Err(NotObject)
    else if v.fields == map[] then Ok(All)
    else
      match ParseEntries(order, v, order(v.fields.Keys), [])
      case Err(e) => Err(e)
      case Ok(parts) => Ok(if |parts| == 1 then parts[0] else And(parts))
  }

  function ParseEntries(order: KeyOrder, v: Json, keys: seq<string>, parts: seq<Filter>): Parsed<seq<Filter>>
    requires forall s, k :: k in order(s) ==> k in s
    requires v.Obj? && forall k | k in keys :: k in v.fields
    decreases v, 1, |keys|
  {
    if keys == [] then Ok(parts)
    else
      match ParseKv(order, keys[0], v.fields[keys[0]])
      case Err(e) => Err(e)
      case Ok(f) => ParseEntries(order, v, keys[1..], parts + [f])
  }

  function ParseKv(order: KeyOrder, key: string, v: Json): Parsed<Filter>
    requires forall s, k :: k in order(s) ==> k in s
    decreases v, 3
  {
    if key == "$and" then
      match ParseCompound(order, key, v)
      case Err(e) => Err(e)
      case Ok(fs) => Ok(And(fs))
    else if key == "$or" then
      match ParseCompound(order, key, v)
      case Err(e) => Err(e)
      case Ok(fs) => Ok(Or(fs))
    else if key == "$not" then
      match FromJson(order, v)
      case Err(e) => Err(e)
      case Ok(f) => Ok(Not(f))
    else if IsOperator(key) then Err(UnknownOperator(key))
    else ParseField(order, key, v)
  }

  function ParseCompound(order: KeyOrder, op: string, v: Json): Parsed<seq<Filter>>
    requires forall s, k :: k in order(s) ==> k in s
    decreases v, 2
  {
    if v.Arr? then ParseAll(order, v.items, []) else Err(BadOperator(op))
  }

  function ParseAll(order: KeyOrder, items: seq<Json>, parts: seq<Filter>): Parsed<seq<Filter>>
    requires forall s, k :: k in order(s) ==> k in s
    decreases items, 1
  {
    if items == [] then Ok(parts)
    else
      match FromJson(order, items[0])
      case Err(e) => Err(e)
      case Ok(f) => ParseAll(order, items[1..], parts + [f])
  }

  method BuildFilter(order: KeyOrder, v: Json) returns (r: Parsed<Filter>)
    requires forall s, k :: k in order(s) ==> k in s
    ensures r == FromJson(order, v)
  {
    if !v.Obj? {
      return Err(NotObject);
    }
    if v.fields == map[] {
      return Ok(All);
    }
    var keys := order(v.fields.Keys);
    var parts: seq<Filter> := [];
    for i := 0 to |keys|
      invariant ParseEntries(order, v, keys[i..], parts) == ParseEntries(order, v, keys, [])
    {
      assert keys[i..][1..] == keys[i + 1..];
      match ParseKv(order, keys[i], v.fields[keys[i]]) {
        case Err(e) => return Err(e);
        case Ok(f) => parts := parts + [f];
      }
    }
    return Ok(if |parts| == 1 then parts[0] else And(parts));
  }
}
