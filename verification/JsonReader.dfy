/** The pull reader of the policy runtime: byte offsets in, byte offsets out, no allocation.
  *
  * Each reader is a function (its meaning) and, where the program loops, a method that loops over
  * a cursor and is proved to compute that function.
  */
module JsonReader {
  import opened Wrappers
  import opened JsonText

  /** `Result<T, ()>`: the reader reports malformed input without a reason. */
  datatype Read<+T> = Ok(value: T) | Malformed

  predicate ByteAt(bytes: Bytes, i: nat, b: byte) {
    i < |bytes| && bytes[i] == b
  }

  predicate StartsAt(bytes: Bytes, i: nat, s: Bytes) {
    i + |s| <= |bytes| && bytes[i..i + |s|] == s
  }

  // ----- Blanks

  function SkipWs(bytes: Bytes, at: nat): (r: nat)
    ensures at <= r
    ensures at <= |bytes| ==> r <= |bytes|
    ensures r < |bytes| ==> !IsWs(bytes[r])
    decreases |bytes| - at
  {
    if at < |bytes| && IsWs(bytes[at]) then SkipWs(bytes, at + 1) else at
  }

  method ScanWs(bytes: Bytes, at: nat) returns (r: nat)
    ensures r == SkipWs(bytes, at)
  {
    r := at;
    while r < |bytes| && IsWs(bytes[r])
      invariant SkipWs(bytes, r) == SkipWs(bytes, at)
    {
      r := r + 1;
    }
  }

  // ----- Strings

  /** Offset of the quote that closes a string whose body is being read at `i`. */
  function ClosingQuote(bytes: Bytes, i: nat): (r: Read<nat>)
    ensures r.Ok? ==> i <= r.value < |bytes| && bytes[r.value] == QUOTE
    decreases |bytes| - i
  {
    if i >= |bytes| then Malformed
    else if bytes[i] == BACKSLASH then
      if ByteAt(bytes, i + 1, LOWER_U) then Malformed else ClosingQuote(bytes, i + 2)
    else if bytes[i] == QUOTE then Ok(i)
    else ClosingQuote(bytes, i + 1)
  }

  function AsStr(bytes: Bytes, at: nat): (r: Read<Bytes>)
    ensures r.Ok? ==> at + 2 + |r.value| <= |bytes|
  {
    if !ByteAt(bytes, at, QUOTE) then Malformed
    else
      match ClosingQuote(bytes, at + 1)
      case Malformed => Malformed
      case Ok(end) => Ok(bytes[at + 1..end])
  }

  method ScanStr(bytes: Bytes, at: nat) returns (r: Read<Bytes>)
    ensures r == AsStr(bytes, at)
  {
    if !ByteAt(bytes, at, QUOTE) {
      return Malformed;
    }
    var i := at + 1;
    while i < |bytes|
      invariant at + 1 <= i
      invariant ClosingQuote(bytes, i) == ClosingQuote(bytes, at + 1)
    {
      if bytes[i] == BACKSLASH {
        if ByteAt(bytes, i + 1, LOWER_U) {
          return Malformed;
        }
        i := i + 2;
      } else if bytes[i] == QUOTE {
        return Ok(bytes[at + 1..i]);
      } else {
        i := i + 1;
      }
    }
    return Malformed;
  }

  // ----- Containers, numbers, values

  /** Offset just past the bracket that brings `depth` back to zero. Only `open` and `close` are
    * counted, and nothing inside a string is. */
  function ContainerEnd(bytes: Bytes, i: nat, depth: int, inStr: bool, open: byte, close: byte): (r: Read<nat>)
    ensures r.Ok? ==> i < r.value <= |bytes|
    decreases |bytes| - i
  {
    if i >= |bytes| then Malformed
    else
      var b := bytes[i];
      if inStr then
        if b == BACKSLASH then ContainerEnd(bytes, i + 2, depth, true, open, close)
        else ContainerEnd(bytes, i + 1, depth, b != QUOTE, open, close)
      else if b == QUOTE then ContainerEnd(bytes, i + 1, depth, true, open, close)
      else if b == open then ContainerEnd(bytes, i + 1, depth + 1, false, open, close)
      else if b == close then
        if depth - 1 == 0 then Ok(i + 1) else ContainerEnd(bytes, i + 1, depth - 1, false, open, close)
      else ContainerEnd(bytes, i + 1, depth, false, open, close)
  }

  method ScanContainer(bytes: Bytes, at: nat, open: byte, close: byte) returns (r: Read<nat>)
    ensures r == ContainerEnd(bytes, at, 0, false, open, close)
  {
    var depth, i, inStr := 0, at, false;
    while i < |bytes|
      invariant ContainerEnd(bytes, i, depth, inStr, open, close) == ContainerEnd(bytes, at, 0, false, open, close)
      decreases |bytes| - i
    {
      var b := bytes[i];
      if inStr {
        if b == BACKSLASH {
          i := i + 2;
          continue;
        }
        if b == QUOTE {
          inStr := false;
        }
      } else {
        if b == QUOTE {
          inStr := true;
        } else if b == open {
          depth := depth + 1;
        } else if b == close {
          depth := depth - 1;
          if depth == 0 {
            return Ok(i + 1);
          }
        }
      }
      i := i + 1;
    }
    return Malformed;
  }

  /** End of the run of number bytes at `i`. */
  function NumberRun(bytes: Bytes, i: nat): (r: nat)
    ensures i <= r
    ensures i <= |bytes| ==> r <= |bytes|
    decreases |bytes| - i
  {
    if i < |bytes| && IsNumberByte(bytes[i]) then NumberRun(bytes, i + 1) else i
  }

  function SkipNumber(bytes: Bytes, at: nat): (r: Read<nat>)
    ensures r.Ok? ==> at < r.value <= |bytes|
  {
    var digitsStart := if ByteAt(bytes, at, MINUS) then at + 1 else at;
    var end := NumberRun(bytes, digitsStart);
    if end == digitsStart then Malformed else Ok(end)
  }

  method ScanNumber(bytes: Bytes, at: nat) returns (r: Read<nat>)
    ensures r == SkipNumber(bytes, at)
  {
    var i := at;
    var signConsumed := ByteAt(bytes, i, MINUS);
    if signConsumed {
      i := i + 1;
    }
    var digitsStart := i;
    while i < |bytes| && IsNumberByte(bytes[i])
      invariant digitsStart <= i
      invariant NumberRun(bytes, i) == NumberRun(bytes, digitsStart)
    {
      i := i + 1;
    }
    if i == digitsStart {
      return Malformed;
    } else if !signConsumed && i == at {
      return Malformed;
    } else {
      return Ok(i);
    }
  }

  function SkipKeyword(bytes: Bytes, at: nat): (r: Read<nat>)
    ensures r.Ok? ==> at < r.value <= |bytes|
  {
    if StartsAt(bytes, at, TRUE) then Ok(at + |TRUE|)
    else if StartsAt(bytes, at, FALSE) then Ok(at + |FALSE|)
    else if StartsAt(bytes, at, NULL) then Ok(at + |NULL|)
    else Malformed
  }

  function SkipValue(bytes: Bytes, at: nat): (r: Read<nat>)
    ensures r.Ok? ==> at < r.value <= |bytes|
  {
    if at >= |bytes| then Malformed
    else
      var b := bytes[at];
      if b == QUOTE then
        match AsStr(bytes, at)
        case Malformed => Malformed
        case Ok(s) => Ok(at + 2 + |s|)
      else if b == LBRACE then ContainerEnd(bytes, at, 0, false, LBRACE, RBRACE)
      else if b == LBRACKET then ContainerEnd(bytes, at, 0, false, LBRACKET, RBRACKET)
      else if b == LOWER_T || b == LOWER_F || b == LOWER_N then SkipKeyword(bytes, at)
      else if b == MINUS || IsDigit(b) then SkipNumber(bytes, at)
      else Malformed
  }

  method ScanValue(bytes: Bytes, at: nat) returns (r: Read<nat>)
    ensures r == SkipValue(bytes, at)
  {
    if at >= |bytes| {
      return Malformed;
    }
    var b := bytes[at];
    if b == QUOTE {
      var s := ScanStr(bytes, at);
      return match s case Malformed => Malformed case Ok(body) => Ok(at + 2 + |body|);
    } else if b == LBRACE {
      r := ScanContainer(bytes, at, LBRACE, RBRACE);
    } else if b == LBRACKET {
      r := ScanContainer(bytes, at, LBRACKET, RBRACKET);
    } else if b == LOWER_T || b == LOWER_F || b == LOWER_N {
      r := SkipKeyword(bytes, at);
    } else if b == MINUS || IsDigit(b) {
      r := ScanNumber(bytes, at);
    } else {
      r := Malformed;
    }
  }

  function AsBool(bytes: Bytes, at: nat): Read<bool> {
    if StartsAt(bytes, at, TRUE) then Ok(true)
    else if StartsAt(bytes, at, FALSE) then Ok(false)
    else Malformed
  }

  // ----- Objects and arrays

  /** What reading one member at `i` tells a search for `key`. */
  datatype MemberStep = Hit(start: nat) | Absent | Next(i: nat) | Broken

  function ReadMember(bytes: Bytes, i: nat, key: Bytes): (r: MemberStep)
    ensures r.Hit? ==> i < r.start <= |bytes|
    ensures r.Next? ==> i < r.i <= |bytes|
  {
    match AsStr(bytes, i)
    case Malformed => Broken
    case Ok(k) =>
      var colon := SkipWs(bytes, i + 2 + |k|);
      if !ByteAt(bytes, colon, COLON) then Broken
      else
        var start := SkipWs(bytes, colon + 1);
        if k == key then Hit(start)
        else
          match SkipValue(bytes, start)
          case Malformed => Broken
          case Ok(end) =>
            var next := SkipWs(bytes, end);
            if ByteAt(bytes, next, COMMA) then Next(SkipWs(bytes, next + 1))
            else if ByteAt(bytes, next, RBRACE) then Absent
            else Broken
  }

  /** Where the value of `key` starts, reading members from the key at `i` on. */
  function FindKeyFrom(bytes: Bytes, i: nat, key: Bytes): (r: Read<Option<nat>>)
    ensures r.Ok? && r.value.Some? ==> i < r.value.value <= |bytes|
    decreases |bytes| - i
  {
    match ReadMember(bytes, i, key)
    case Hit(start) => Ok(Some(start))
    case Absent => Ok(None)
    case Next(j) => FindKeyFrom(bytes, j, key)
    case Broken => Malformed
  }

  function FindKeyInObject(bytes: Bytes, at: nat, key: Bytes): (r: Read<Option<nat>>)
    ensures r.Ok? && r.value.Some? ==> at < r.value.value <= |bytes|
  {
    var first := SkipWs(bytes, at + 1);
    if ByteAt(bytes, first, RBRACE) then Ok(None) else FindKeyFrom(bytes, first, key)
  }

  method ScanMember(bytes: Bytes, i: nat, key: Bytes) returns (r: MemberStep)
    ensures r == ReadMember(bytes, i, key)
  {
    var k := ScanStr(bytes, i);
    if k.Malformed? {
      return Broken;
    }
    var at := ScanWs(bytes, i + 2 + |k.value|);
    if !ByteAt(bytes, at, COLON) {
      return Broken;
    }
    at := ScanWs(bytes, at + 1);
    if k.value == key {
      return Hit(at);
    }
    var end := ScanValue(bytes, at);
    if end.Malformed? {
      return Broken;
    }
    at := ScanWs(bytes, end.value);
    if ByteAt(bytes, at, COMMA) {
      at := ScanWs(bytes, at + 1);
      return Next(at);
    } else if ByteAt(bytes, at, RBRACE) {
      return Absent;
    } else {
      return Broken;
    }
  }

  method ScanKeyInObject(bytes: Bytes, at: nat, key: Bytes) returns (r: Read<Option<nat>>)
    ensures r == FindKeyInObject(bytes, at, key)
  {
    var i := ScanWs(bytes, at + 1);
    if ByteAt(bytes, i, RBRACE) {
      return Ok(None);
    }
    while true
      invariant FindKeyFrom(bytes, i, key) == FindKeyInObject(bytes, at, key)
      decreases |bytes| - i
    {
      var step := ScanMember(bytes, i, key);
      match step {
        case Hit(start) => return Ok(Some(start));
        case Absent => return Ok(None);
        case Next(j) => i := j;
        case Broken => return Malformed;
      }
    }
  }

  /** Follow `path` from the value at `cursor`. */
  function FindFrom(bytes: Bytes, cursor: nat, path: seq<Bytes>): (r: Read<Option<(nat, nat)>>)
    ensures r.Ok? && r.value.Some? ==> cursor <= r.value.value.0 < r.value.value.1 <= |bytes|
    decreases |path|
  {
    if path == [] then
      match SkipValue(bytes, cursor)
      case Malformed => Malformed
      case Ok(end) => Ok(Some((cursor, end)))
    else if !ByteAt(bytes, cursor, LBRACE) then Ok(None)
    else
      match FindKeyInObject(bytes, cursor, path[0])
      case Malformed => Malformed
      case Ok(None) => Ok(None)
      case Ok(Some(start)) => FindFrom(bytes, start, path[1..])
  }

  function FindPath(bytes: Bytes, path: seq<Bytes>): (r: Read<Option<(nat, nat)>>)
    ensures r.Ok? && r.value.Some? ==> r.value.value.0 < r.value.value.1 <= |bytes|
  {
    FindFrom(bytes, SkipWs(bytes, 0), path)
  }

  method ScanPath(bytes: Bytes, path: seq<Bytes>) returns (r: Read<Option<(nat, nat)>>)
    ensures r == FindPath(bytes, path)
  {
    var cursor := ScanWs(bytes, 0);
    for n := 0 to |path|
      invariant FindFrom(bytes, cursor, path[n..]) == FindPath(bytes, path)
    {
      assert path[n..][1..] == path[n + 1..];
      if !ByteAt(bytes, cursor, LBRACE) {
        return Ok(None);
      }
      var found := ScanKeyInObject(bytes, cursor, path[n]);
      match found {
        case Malformed => return Malformed;
        case Ok(None) => return Ok(None);
        case Ok(Some(start)) => cursor := start;
      }
    }
    var end := ScanValue(bytes, cursor);
    return match end case Malformed => Malformed case Ok(e) => Ok(Some((cursor, e)));
  }

  /** Start and end of each element a visitor was called with, in the order of the calls. */
  type Calls = seq<(nat, nat)>

  /** The calls made, and whether the visit ended well. */
  datatype Visit = Visit(calls: Calls, ok: bool)

  /** Visit the elements from the one at `i` on. Like the source's closure, which may carry state, the visitor
    * decides by all the calls it has had whether to stop. */
  function VisitFrom(bytes: Bytes, i: nat, calls: Calls, stop: Calls -> bool): Visit
    decreases |bytes| - i
  {
    match SkipValue(bytes, i)
    case Malformed => Visit(calls, false)
    case Ok(end) =>
      var seen := calls + [(i, end)];
      if stop(seen) then Visit(seen, true)
      else
        var next := SkipWs(bytes, end);
        if ByteAt(bytes, next, COMMA) then VisitFrom(bytes, SkipWs(bytes, next + 1), seen, stop)
        else Visit(seen, ByteAt(bytes, next, RBRACKET))
  }

  function Visited(bytes: Bytes, at: nat, stop: Calls -> bool): Visit {
    if !ByteAt(bytes, at, LBRACKET) then Visit([], false)
    else
      var first := SkipWs(bytes, at + 1);
      if ByteAt(bytes, first, RBRACKET) then Visit([], true) else VisitFrom(bytes, first, [], stop)
  }

  method EachElement(bytes: Bytes, at: nat, stop: Calls -> bool) returns (calls: Calls, ok: bool)
    ensures Visit(calls, ok) == Visited(bytes, at, stop)
  {
    calls := [];
    if !ByteAt(bytes, at, LBRACKET) {
      return calls, false;
    }
    var i := ScanWs(bytes, at + 1);
    if ByteAt(bytes, i, RBRACKET) {
      return calls, true;
    }
    while true
      invariant VisitFrom(bytes, i, calls, stop) == Visited(bytes, at, stop)
      decreases |bytes| - i
    {
      var start := i;
      var end := ScanValue(bytes, i);
      if end.Malformed? {
        return calls, false;
      }
      calls := calls + [(start, end.value)];
      if stop(calls) {
        return calls, true;
      }
      i := ScanWs(bytes, end.value);
      if ByteAt(bytes, i, COMMA) {
        i := ScanWs(bytes, i + 1);
      } else {
        return calls, ByteAt(bytes, i, RBRACKET);
      }
    }
  }

  /** A visitor that looks for an element and stops at the first: the last call, if any, was a hit. */
  predicate Found(hit: nat -> bool, calls: Calls) {
    calls != [] && hit(calls[|calls| - 1].0)
  }

  function AnyElement(bytes: Bytes, at: nat, hit: nat -> bool): Read<bool> {
    var visit := Visited(bytes, at, (calls: Calls) => Found(hit, calls));
    if visit.ok then Ok(Found(hit, visit.calls)) else Malformed
  }
}
